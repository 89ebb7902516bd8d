/** The directory walker. The filesystem is a finite tree given up front:
    each directory listing either fails or yields named entries, and each
    entry's stat either fails or says what the entry is. A regular file also
    carries what content sniffing and the duration probe would report. The
    walker maps every entry to a node or to nothing, then drops the nothings. */
module FileProcessor {
  import opened Types
  import Text

  /** What content sniffing reports for a file. */
  datatype Sniff = NoType | Mime(mime: string) | SniffFails

  /** What `stat` reports for an entry. A regular file carries its size, its
      sniffed type and its duration in whole seconds (None when the probe fails). */
  datatype FsNode =
    | Directory(listing: DirListing)
    | RegularFile(size: nat, sniff: Sniff, duration: Option<nat>)
    | OtherNode
    | StatFails

  datatype DirEntry = DirEntry(name: string, node: FsNode)

  /** What `readdir` reports for a directory. */
  datatype DirListing = Entries(entries: seq<DirEntry>) | ReadDirFails

  /** The walker's `path.join` of a directory and an entry name, written as
      plain concatenation with one '/'. That is what `path.join` gives when the
      directory is already normal (no trailing '/', no empty, '.' or '..'
      segment) and the name is a single `readdir` entry; the normalisation
      `path.join` applies to other inputs is not modelled. */
  function JoinPath(dir: string, name: string): string
  {
    dir + "/" + name
  }

  /** `path.extname` of a slash-free name: from the last dot on, or empty when
      there is no dot, the only dot leads the name, or the name is "..". */
  function ExtName(name: string): (r: string)
    ensures r != "" ==> |r| <= |name| && r == name[|name| - |r|..] && r[0] == '.' && '.' !in r[1..]
    ensures r == "" <==> Text.LastIndexOf(name, '.') <= 0 || name == ".."
    ensures r != "" ==> r == name[Text.LastIndexOf(name, '.')..]
  {
    var k := Text.LastIndexOf(name, '.');
    if k <= 0 || name == ".." then "" else name[k..]
  }

  predicate IsHidden(name: string)
  {
    Text.StartsWith(name, HiddenFilePrefix)
  }

  /** The extension test: lower-cased extension in the allow-list. */
  predicate HasVideoExtension(name: string)
  {
    Text.ToLower(ExtName(name)) in VideoExtensions
  }

  /** The walk of one directory: empty when the listing fails or when `stat`
      fails on any entry that is not hidden; otherwise the surviving nodes. */
  function GetFolderContentsRecursively(currentPath: string, listing: DirListing): (r: seq<FolderItem>)
    ensures listing.ReadDirFails? ==> r == []
    ensures listing.Entries? && AnyStatFails(listing.entries) ==> r == []
    ensures listing.Entries? ==> |r| <= |listing.entries|
    decreases listing
  {
    match listing
    case ReadDirFails => []
    case Entries(es) =>
      if AnyStatFails(es) then [] else Compact(MapEntries(currentPath, es))
  }

  predicate AnyStatFails(es: seq<DirEntry>)
  {
    exists k :: 0 <= k < |es| && !IsHidden(es[k].name) && es[k].node.StatFails?
  }

  /** The per-entry results, in listing order. */
  function MapEntries(currentPath: string, es: seq<DirEntry>): (r: seq<Option<FolderItem>>)
    ensures |r| == |es|
    decreases es
  {
    if es == [] then []
    else MapEntries(currentPath, es[..|es| - 1]) + [ProcessEntry(currentPath, es[|es| - 1])]
  }

  /** One entry: hidden names give nothing; a directory gives a folder with
      its recursive walk; a regular file with an allowed extension and a size
      strictly above the minimum is handed to the video check; anything else
      gives nothing. */
  function ProcessEntry(currentPath: string, e: DirEntry): (r: Option<FolderItem>)
    ensures IsHidden(e.name) || e.node.OtherNode? || e.node.StatFails? ==> r.None?
    ensures !IsHidden(e.name) && e.node.Directory? ==> r.Some?
    ensures r.Some? ==> r.value.name == e.name && r.value.path == JoinPath(currentPath, e.name)
    ensures r.Some? ==> (r.value.itemType == Folder <==> e.node.Directory?)
    decreases e
  {
    if IsHidden(e.name) then None
    else
      var itemPath := JoinPath(currentPath, e.name);
      match e.node
      case Directory(listing) =>
        Some(FolderItem(e.name, itemPath, Folder, Present(GetFolderContentsRecursively(itemPath, listing)), None))
      case RegularFile(size, sniff, duration) =>
        if HasVideoExtension(e.name) && size > MinVideoSizeBytes
        then ProcessVideoFile(e.name, itemPath, sniff, duration)
        else None
      case OtherNode => None
      case StatFails => None
  }

  /** The video check: a sniffed MIME type starting with "video/" gives a
      video node with whatever duration the probe reported. */
  function ProcessVideoFile(item: string, itemPath: string, sniff: Sniff, duration: Option<nat>)
    : (r: Option<FolderItem>)
    ensures r.Some? <==> sniff.Mime? && Text.StartsWith(sniff.mime, "video/")
    ensures r.Some? ==> r.value == FolderItem(item, itemPath, Video, Absent, duration)
  {
    match sniff
    case Mime(mime) =>
      if Text.StartsWith(mime, "video/") then Some(FolderItem(item, itemPath, Video, Absent, duration))
      else None
    case NoType => None
    case SniffFails => None
  }

  /** The present values, in order. */
  function Compact<T>(opts: seq<Option<T>>): (r: seq<T>)
    ensures |r| <= |opts|
  {
    if opts == [] then []
    else Compact(opts[..|opts| - 1]) + (match opts[|opts| - 1] case Some(x) => [x] case None => [])
  }

  /** Indices of the present values, in order. */
  function KeptIndices<T>(opts: seq<Option<T>>): seq<nat>
  {
    if opts == [] then []
    else KeptIndices(opts[..|opts| - 1]) + (if opts[|opts| - 1].Some? then [|opts| - 1] else [])
  }

  // ---------------------------------------------------------------------
  // Properties of one entry
  // ---------------------------------------------------------------------

  /** An entry becomes a video node exactly when it is not hidden, is a
      regular file with an allowed extension, is strictly larger than the
      minimum and sniffs as video; the node keeps the probed duration. */
  lemma {:induction false} VideoEntryIff(currentPath: string, e: DirEntry)
    ensures (ProcessEntry(currentPath, e).Some? && ProcessEntry(currentPath, e).value.itemType == Video) <==>
      (!IsHidden(e.name) && e.node.RegularFile? && HasVideoExtension(e.name) &&
       e.node.size > MinVideoSizeBytes && e.node.sniff.Mime? && Text.StartsWith(e.node.sniff.mime, "video/"))
    ensures ProcessEntry(currentPath, e).Some? && ProcessEntry(currentPath, e).value.itemType == Video ==>
      ProcessEntry(currentPath, e).value ==
        FolderItem(e.name, JoinPath(currentPath, e.name), Video, Absent, e.node.duration)
  {
  }

  /** A visible directory always yields a folder whose contents are its own walk. */
  lemma {:induction false} DirectoryYieldsFolder(currentPath: string, name: string, listing: DirListing)
    requires !IsHidden(name)
    ensures ProcessEntry(currentPath, DirEntry(name, Directory(listing))) ==
      Some(FolderItem(name, JoinPath(currentPath, name), Folder,
                      Present(GetFolderContentsRecursively(JoinPath(currentPath, name), listing)), None))
  {
  }

  /** A file of exactly the minimum size is dropped, whatever it holds. */
  lemma {:induction false} MinimumSizeIsDropped(currentPath: string, name: string, sniff: Sniff, duration: Option<nat>)
    ensures ProcessEntry(currentPath, DirEntry(name, RegularFile(MinVideoSizeBytes, sniff, duration))) == None
  {
  }

  /** A failed duration probe still gives a video node, with no duration. */
  lemma {:induction false} DurationFailureKeepsVideo(currentPath: string, name: string, size: nat, mime: string)
    requires !IsHidden(name) && HasVideoExtension(name) && size > MinVideoSizeBytes
    requires Text.StartsWith(mime, "video/")
    ensures ProcessEntry(currentPath, DirEntry(name, RegularFile(size, Mime(mime), None))) ==
      Some(FolderItem(name, JoinPath(currentPath, name), Video, Absent, None))
  {
    var e := DirEntry(name, RegularFile(size, Mime(mime), None));
    assert ProcessEntry(currentPath, e) == ProcessVideoFile(name, JoinPath(currentPath, name), Mime(mime), None);
  }

  /** The extension test ignores case. */
  lemma UpperCaseExtension()
    ensures ExtName("Intro.MP4") == ".MP4"
    ensures HasVideoExtension("Intro.MP4")
    ensures !HasVideoExtension(".mp4")
  {
    Text.LastIndexOfIs("Intro.MP4", '.', 5);
    assert Text.ToLower(".MP4") == ".mp4";
    Text.LastIndexOfIs(".mp4", '.', 0);
    assert ExtName(".mp4") == "";
  }

  // ---------------------------------------------------------------------
  // Properties of a whole walk
  // ---------------------------------------------------------------------

  /** Failing to list a directory, or to stat any visible entry of it,
      empties that directory's result. */
  lemma {:induction false} FailureEmptiesDirectory(currentPath: string, es: seq<DirEntry>, k: nat)
    requires k < |es| && !IsHidden(es[k].name) && es[k].node.StatFails?
    ensures GetFolderContentsRecursively(currentPath, Entries(es)) == []
    ensures GetFolderContentsRecursively(currentPath, ReadDirFails) == []
  {
  }

  /** A subdirectory that cannot be listed still appears, with empty contents. */
  lemma {:induction false} FailedSubdirectoryIsEmptyFolder(currentPath: string, name: string)
    requires !IsHidden(name)
    ensures ProcessEntry(currentPath, DirEntry(name, Directory(ReadDirFails))) ==
      Some(FolderItem(name, JoinPath(currentPath, name), Folder, Present([]), None))
  {
  }

  /** The walker's output: no hidden names; folders carry contents and no
      duration; videos carry no contents and passed the extension test;
      and so on all the way down. */
  predicate WellShaped(items: seq<FolderItem>)
    decreases items
  {
    forall k :: 0 <= k < |items| ==> ItemWellShaped(items[k])
  }

  predicate ItemWellShaped(it: FolderItem)
    decreases it
  {
    !IsHidden(it.name) &&
    match it.itemType
    case Folder => it.contents.Present? && it.duration.None? && WellShaped(it.contents.items)
    case Video => it.contents.Absent? && HasVideoExtension(it.name)
  }

  lemma {:induction false} WalkIsWellShaped(currentPath: string, listing: DirListing)
    ensures WellShaped(GetFolderContentsRecursively(currentPath, listing))
    decreases listing
  {
    match listing
    case ReadDirFails =>
    case Entries(es) =>
      if !AnyStatFails(es) {
        MapEntriesWellShaped(currentPath, es);
        CompactKeeps(MapEntries(currentPath, es));
      }
  }

  lemma {:induction false} MapEntriesWellShaped(currentPath: string, es: seq<DirEntry>)
    ensures forall k :: 0 <= k < |MapEntries(currentPath, es)| && MapEntries(currentPath, es)[k].Some? ==>
      ItemWellShaped(MapEntries(currentPath, es)[k].value)
    decreases es
  {
    if es != [] {
      var n := |es| - 1;
      MapEntriesWellShaped(currentPath, es[..n]);
      EntryWellShaped(currentPath, es[n]);
    }
  }

  lemma {:induction false} EntryWellShaped(currentPath: string, e: DirEntry)
    ensures ProcessEntry(currentPath, e).Some? ==> ItemWellShaped(ProcessEntry(currentPath, e).value)
    decreases e
  {
    if !IsHidden(e.name) && e.node.Directory? {
      WalkIsWellShaped(JoinPath(currentPath, e.name), e.node.listing);
    }
  }

  /** Every kept value is one of the present values. */
  lemma {:induction false} CompactKeeps<T>(opts: seq<Option<T>>)
    ensures forall j :: 0 <= j < |Compact(opts)| ==> Some(Compact(opts)[j]) in opts
  {
    if opts != [] {
      var n := |opts| - 1;
      CompactKeeps(opts[..n]);
      forall j | 0 <= j < |Compact(opts)| ensures Some(Compact(opts)[j]) in opts {
        if j < |Compact(opts[..n])| {
          assert Some(Compact(opts[..n])[j]) in opts[..n];
        } else {
          assert opts[n] == Some(Compact(opts)[j]);
        }
      }
    }
  }

  /** The kept values are the present values in their original order: the
      j-th kept value sits at the j-th kept index, the kept indices increase,
      and every present value is kept. */
  lemma {:induction false} CompactOrder<T>(opts: seq<Option<T>>)
    ensures |KeptIndices(opts)| == |Compact(opts)|
    ensures forall j :: 0 <= j < |KeptIndices(opts)| ==>
      KeptIndices(opts)[j] < |opts| && opts[KeptIndices(opts)[j]] == Some(Compact(opts)[j])
    ensures forall i, j :: 0 <= i < j < |KeptIndices(opts)| ==> KeptIndices(opts)[i] < KeptIndices(opts)[j]
    ensures forall k :: 0 <= k < |opts| && opts[k].Some? ==> k in KeptIndices(opts)
  {
    if opts != [] {
      var n := |opts| - 1;
      var p := opts[..n];
      CompactOrder(p);
      forall j | 0 <= j < |KeptIndices(p)|
        ensures opts[KeptIndices(p)[j]] == Some(Compact(opts)[j])
      {
        assert opts[KeptIndices(p)[j]] == p[KeptIndices(p)[j]];
      }
      forall k | 0 <= k < |opts| && opts[k].Some? ensures k in KeptIndices(opts) {
        if k < n {
          assert p[k] == opts[k];
        }
      }
    }
  }

  /** The walk of a listing keeps the surviving entries in listing order. */
  lemma {:induction false} WalkKeepsListingOrder(currentPath: string, es: seq<DirEntry>)
    requires !AnyStatFails(es)
    ensures var out := GetFolderContentsRecursively(currentPath, Entries(es));
      var idx := KeptIndices(MapEntries(currentPath, es));
      |idx| == |out| &&
      (forall j :: 0 <= j < |idx| ==>
        idx[j] < |es| && ProcessEntry(currentPath, es[idx[j]]) == Some(out[j])) &&
      (forall i, j :: 0 <= i < j < |idx| ==> idx[i] < idx[j]) &&
      (forall k :: 0 <= k < |es| && ProcessEntry(currentPath, es[k]).Some? ==> k in idx)
  {
    MapEntriesAt(currentPath, es);
    CompactOrder(MapEntries(currentPath, es));
  }

  lemma {:induction false} MapEntriesAt(currentPath: string, es: seq<DirEntry>)
    ensures forall k :: 0 <= k < |es| ==> MapEntries(currentPath, es)[k] == ProcessEntry(currentPath, es[k])
  {
    if es != [] {
      var n := |es| - 1;
      MapEntriesAt(currentPath, es[..n]);
      forall k | 0 <= k < n ensures MapEntries(currentPath, es)[k] == ProcessEntry(currentPath, es[k]) {
        assert es[..n][k] == es[k];
      }
    }
  }
}
