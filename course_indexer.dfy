/** The indexing worker: on a `full-index` request it walks the root, counts
    the folder and video nodes of the result with a recursive loop over two
    shared counters, and posts exactly one reply. */
module CourseIndexer {
  import opened Types
  import opened FolderTree

  /** A request posted to the worker. */
  datatype IndexMessage = IndexMessage(msgType: string, rootPath: string)

  /** The request type the worker acts on. */
  const FullIndex: string := "full-index"

  /** How the awaited walk of the root ended: with a tree, or by throwing.
      A thrown `Error` carries its message; anything else thrown carries none. */
  datatype WalkOutcome = Walked(items: seq<FolderItem>) | Threw(message: Option<string>)

  /** A reply posted back by the worker. */
  datatype WorkerReply =
    | IndexDone(rootPath: string, items: seq<FolderItem>, totalFolders: nat, totalVideos: nat)
    | IndexError(rootPath: string, error: string)

  /** The recursive counter: one folder per folder node, entering its
      contents when present, and one video per video node. */
  method Walk(nodes: seq<FolderItem>, totalFolders: nat, totalVideos: nat)
    returns (folders: nat, videos: nat)
    ensures folders == totalFolders + FolderNodes(nodes)
    ensures videos == totalVideos + VideoNodes(nodes)
    decreases nodes
  {
    folders, videos := totalFolders, totalVideos;
    for i := 0 to |nodes|
      invariant folders == totalFolders + FolderNodes(nodes[..i])
      invariant videos == totalVideos + VideoNodes(nodes[..i])
    {
      var node := nodes[i];
      assert nodes[..i + 1][..i] == nodes[..i];
      if node.itemType == Folder {
        folders := folders + 1;
        if node.contents.Present? {
          folders, videos := Walk(node.contents.items, folders, videos);
        }
      } else {
        videos := videos + 1;
      }
    }
    assert nodes[..|nodes|] == nodes;
  }

  /** The error text of a failed walk. */
  function ErrorText(message: Option<string>): (r: string)
    ensures message.Some? ==> r == message.value
    ensures message.None? ==> r == "Unknown error"
  {
    match message
    case Some(m) => m
    case None => "Unknown error"
  }

  /** The message handler. Returns the replies it posts, in order. */
  method OnMessage(msg: IndexMessage, outcome: WalkOutcome) returns (posted: seq<WorkerReply>)
    ensures msg.msgType != FullIndex ==> posted == []
    ensures msg.msgType == FullIndex ==> |posted| == 1 && posted[0].rootPath == msg.rootPath
    ensures msg.msgType == FullIndex && outcome.Walked? ==>
      posted == [IndexDone(msg.rootPath, outcome.items, FolderNodes(outcome.items), VideoNodes(outcome.items))]
    ensures msg.msgType == FullIndex && outcome.Threw? ==>
      posted == [IndexError(msg.rootPath, ErrorText(outcome.message))]
  {
    if msg.msgType != FullIndex {
      return [];
    }
    var rootPath := msg.rootPath;
    match outcome
    case Walked(items) =>
      var totalFolders, totalVideos := Walk(items, 0, 0);
      posted := [IndexDone(rootPath, items, totalFolders, totalVideos)];
    case Threw(message) =>
      posted := [IndexError(rootPath, ErrorText(message))];
  }
}
