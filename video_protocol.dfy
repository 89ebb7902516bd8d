/** The `video://` stream handler: turns a request URL into a file path,
    checks the path, and answers with a status code and, on success, the
    content headers. Decoding the path and `stat` are oracles. */
module VideoProtocol {
  import opened Types
  import Text
  import FileProcessor

  const Scheme: string := "video://"

  /** The URL with a leading `video://` removed; elsewhere it stays. */
  function StripScheme(url: string): (r: string)
    ensures Text.StartsWith(url, Scheme) ==> url == Scheme + r
    ensures !Text.StartsWith(url, Scheme) ==> r == url
  {
    if Text.StartsWith(url, Scheme) then url[|Scheme|..] else url
  }

  /** Reference definition: the longest prefix holding neither '?' nor '#'. */
  function CleanPrefix(s: string): (r: string)
    ensures r <= s && '?' !in r && '#' !in r
    ensures |r| < |s| ==> s[|r|] == '?' || s[|r|] == '#'
  {
    if s == [] || s[0] == '?' || s[0] == '#' then []
    else [s[0]] + CleanPrefix(s[1..])
  }

  /** A string free of both marks is its own clean prefix. */
  lemma {:induction false} CleanPrefixOfClean(s: string)
    requires '?' !in s && '#' !in s
    ensures CleanPrefix(s) == s
  {
    forall i | 0 <= i < |s|
      ensures s[i] != '?' && s[i] != '#'
    {
      assert s[i] in s;
    }
  }

  /** Any prefix free of both marks is no longer than the clean prefix. */
  lemma {:induction false} CleanPrefixIsLongest(s: string, p: string)
    requires p <= s && '?' !in p && '#' !in p
    ensures |p| <= |CleanPrefix(s)|
  {
    forall i | 0 <= i < |p|
      ensures s[i] != '?' && s[i] != '#'
    {
      assert s[i] == p[i];
      assert p[i] in p;
    }
  }

  /** The clean prefix of `s` is the part before the first mark of either kind. */
  lemma {:induction false} CleanPrefixCut(s: string, k: nat)
    requires k <= |s| && '?' !in s[..k] && '#' !in s[..k] && (k == |s| || s[k] == '?' || s[k] == '#')
    ensures CleanPrefix(s) == s[..k]
  {
    var r := CleanPrefix(s);
    CleanPrefixIsLongest(s, s[..k]);
    forall i | 0 <= i < |r|
      ensures s[i] != '?' && s[i] != '#'
    {
      assert s[i] == r[i];
      assert r[i] in r;
    }
    assert r == s[..|r|];
  }

  /** The path part of a request URL: the scheme goes, then everything from
      the first '?', then everything from the first '#' of what is left. */
  method StripVideoUrl(url: string) returns (filePath: string)
    ensures filePath == CleanPrefix(StripScheme(url))
    ensures '?' !in filePath && '#' !in filePath
    ensures filePath <= StripScheme(url)
  {
    filePath := StripScheme(url);
    ghost var rest := filePath;
    var queryIndex := Text.IndexOf(filePath, '?');
    if queryIndex != -1 {
      filePath := filePath[..queryIndex];
    }
    assert filePath <= rest && '?' !in filePath;
    var fragmentIndex := Text.IndexOf(filePath, '#');
    if fragmentIndex != -1 {
      filePath := filePath[..fragmentIndex];
    }
    assert filePath <= rest && '?' !in filePath && '#' !in filePath;
    CleanPrefixCut(rest, |filePath|);
  }

  /** The content types the handler knows, by lower-cased extension. */
  const MimeTypes: map<string, string> := map[
    ".mp4" := "video/mp4",
    ".webm" := "video/webm",
    ".ogg" := "video/ogg",
    ".mov" := "video/quicktime",
    ".avi" := "video/x-msvideo",
    ".mkv" := "video/x-matroska"
  ]

  const DefaultMimeType: string := "video/mp4"

  /** The content type for an extension: the table's entry, else the default. */
  function MimeTypeFor(ext: string): (r: string)
    ensures ext in MimeTypes ==> r == MimeTypes[ext]
    ensures ext !in MimeTypes ==> r == DefaultMimeType
  {
    if ext in MimeTypes && MimeTypes[ext] != "" then MimeTypes[ext] else DefaultMimeType
  }

  /** Every extension the walker accepts gets a video content type; the two
      the table lacks fall back to the default, and the table's extra entry
      is one the walker never lists. */
  lemma MimeTypesCoverWalkerExtensions()
    ensures forall e :: e in VideoExtensions ==> Text.StartsWith(MimeTypeFor(e), "video/")
    ensures MimeTypeFor(".wmv") == DefaultMimeType && MimeTypeFor(".flv") == DefaultMimeType
    ensures ".ogg" in MimeTypes && ".ogg" !in VideoExtensions
    ensures |MimeTypes| == 6
  {
    assert ".wmv" !in MimeTypes && ".flv" !in MimeTypes;
  }

  /** What `stat` reports for the decoded path. */
  datatype StatResult = IsFile(size: nat) | NotAFile | StatThrows

  datatype Header = Header(name: string, value: string)

  datatype Response = Response(statusCode: nat, headers: seq<Header>)

  /** The headers of a successful answer. */
  function OkHeaders(mimeType: string, size: nat): seq<Header>
  {
    [Header("Content-Type", mimeType), Header("Accept-Ranges", "bytes"),
     Header("Content-Length", Text.DecimalString(size))]
  }

  /** The handler. `decode` is URI decoding, None where it throws; `stat`
      reports on a decoded path. */
  method ServeVideo(url: string, decode: string -> Option<string>, stat: string -> StatResult)
    returns (response: Response)
    ensures var p := decode(CleanPrefix(StripScheme(url)));
      if p.None? || stat(p.value).StatThrows? then response == Response(500, [])
      else if stat(p.value).NotAFile? then response == Response(404, [])
      else response.statusCode == 200 &&
           response.headers == OkHeaders(MimeTypeFor(Text.ToLower(FileProcessor.ExtName(Text.Basename(p.value)))),
                                         stat(p.value).size)
  {
    var filePath := StripVideoUrl(url);
    var decoded := decode(filePath);
    if decoded.None? {
      return Response(500, []);
    }
    var decodedPath := decoded.value;
    var stats := stat(decodedPath);
    match stats
    case StatThrows =>
      response := Response(500, []);
    case NotAFile =>
      response := Response(404, []);
    case IsFile(size) =>
      var ext := Text.ToLower(FileProcessor.ExtName(Text.Basename(decodedPath)));
      var mimeType := MimeTypeFor(ext);
      response := Response(200, OkHeaders(mimeType, size));
  }

  /** The declared length reads back as the file size. */
  lemma {:induction false} ContentLengthIsSize(mimeType: string, size: nat)
    ensures var h := OkHeaders(mimeType, size)[2];
      h.name == "Content-Length" && Text.AllDigits(h.value) && Text.ParseDecimal(h.value) == size
  {
  }
}
