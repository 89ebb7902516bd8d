/** The header's breadcrumb trail, derived from the current route, its
    `coursePath` / `videoPath` parameters and the selected root folder, and
    its rendering as links, separators and one current-page item.
    URI encoding and decoding are oracles; decoding may fail. A route
    parameter or root that is absent is the empty string, which the source
    treats the same way. */
module SiteHeader {
  import opened Types
  import Text

  /** One breadcrumb: a name and, unless it is the current page, a target. */
  datatype Crumb = Crumb(name: string, path: Option<string>)

  const CoursesRoute: string := "/courses"
  const DashboardRoute: string := "/dashboard"
  const CoursesCrumb: Crumb := Crumb("Cursos", Some("/courses"))
  const FallbackCrumb: Crumb := Crumb("Curso", None)

  /** The target of the crumb for the first `k` segments below the root. */
  function SegmentTarget(folderPath: string, segs: seq<string>, k: nat, encode: string -> string): string
    requires 1 <= k <= |segs|
  {
    "/courses/" + encode(folderPath + "/" + Text.Join(segs[..k], '/'))
  }

  /** One crumb per segment below the root, in order; the last one has no
      target unless a video follows it. */
  function SegmentCrumbs(folderPath: string, segs: seq<string>, hasVideo: bool, encode: string -> string): (r: seq<Crumb>)
    ensures |r| == |segs|
    ensures forall i :: 0 <= i < |segs| ==> r[i].name == segs[i]
    ensures forall i :: 0 <= i < |segs| ==> (r[i].path.None? <==> i == |segs| - 1 && !hasVideo)
    ensures forall i :: 0 <= i < |segs| && r[i].path.Some? ==> r[i].path.value == SegmentTarget(folderPath, segs, i + 1, encode)
  {
    seq(|segs|, i requires 0 <= i < |segs| =>
      Crumb(segs[i], if i == |segs| - 1 && !hasVideo then None else Some(SegmentTarget(folderPath, segs, i + 1, encode))))
  }

  /** The crumbs for the course part of the route: the segments below the
      root when the decoded course path starts with it, else one crumb named
      after its last segment. */
  function CourseCrumbs(coursePath: string, rawCoursePath: string, folderPath: string, hasVideo: bool,
                        encode: string -> string): seq<Crumb>
  {
    if folderPath != "" && Text.StartsWith(coursePath, folderPath) then
      SegmentCrumbs(folderPath, Text.Segments(coursePath[|folderPath|..]), hasVideo, encode)
    else
      [Crumb(Text.LastSegmentOr(coursePath, "Curso"), Some("/courses/" + rawCoursePath))]
  }

  /** The crumb for the video part of the route, if there is one: its last
      segment, or the fallback crumb when decoding it fails. */
  function VideoCrumbs(rawVideoPath: string, decode: string -> Option<string>): (r: seq<Crumb>)
    ensures |r| == if rawVideoPath == "" then 0 else 1
    ensures forall k :: 0 <= k < |r| ==> r[k].path.None? && r[k].name != ""
    ensures rawVideoPath != "" && decode(rawVideoPath).None? ==> r == [FallbackCrumb]
    ensures rawVideoPath != "" && decode(rawVideoPath).Some? ==>
      var v := decode(rawVideoPath).value;
      var seg := v[Text.LastIndexOf(v, '/') + 1..];
      r == [Crumb(if seg == "" then "Vídeo" else seg, None)]
  {
    if rawVideoPath == "" then []
    else match decode(rawVideoPath)
      case None => [FallbackCrumb]
      case Some(videoPath) => [Crumb(Text.LastSegmentOr(videoPath, "Vídeo"), None)]
  }

  /** What the guarded block contributes after "Cursos": a failed decode
      adds the fallback crumb after whatever was already added. */
  function RouteCrumbs(rawCoursePath: string, rawVideoPath: string, folderPath: string,
                       decode: string -> Option<string>, encode: string -> string): seq<Crumb>
  {
    match decode(rawCoursePath)
    case None => [FallbackCrumb]
    case Some(coursePath) =>
      CourseCrumbs(coursePath, rawCoursePath, folderPath, rawVideoPath != "", encode) + VideoCrumbs(rawVideoPath, decode)
  }

  /** The trail for a route. */
  function Breadcrumbs(pathname: string, rawCoursePath: string, rawVideoPath: string, folderPath: string,
                        decode: string -> Option<string>, encode: string -> string): (r: seq<Crumb>)
    ensures Text.StartsWith(pathname, CoursesRoute) <==> |r| >= 1 && r[0] == CoursesCrumb
    ensures !Text.StartsWith(pathname, CoursesRoute) ==> |r| <= 1
    ensures Text.StartsWith(pathname, CoursesRoute) && rawCoursePath == "" ==> r == [CoursesCrumb]
  {
    if Text.StartsWith(pathname, CoursesRoute) then
      [CoursesCrumb] + (if rawCoursePath == "" then [] else RouteCrumbs(rawCoursePath, rawVideoPath, folderPath, decode, encode))
    else if pathname == DashboardRoute then [Crumb("Dashboard", None)]
    else []
  }

  /** The loop over the segments below the root, carrying the accumulated
      path `currentPath`. */
  method PushSegmentCrumbs(items: seq<Crumb>, folderPath: string, pathSegments: seq<string>, hasVideo: bool,
                           encode: string -> string)
    returns (items': seq<Crumb>)
    ensures items' == items + SegmentCrumbs(folderPath, pathSegments, hasVideo, encode)
  {
    ghost var all := SegmentCrumbs(folderPath, pathSegments, hasVideo, encode);
    items' := items;
    var currentPath := folderPath;
    for i := 0 to |pathSegments|
      invariant items' == items + all[..i]
      invariant i == 0 ==> currentPath == folderPath
      invariant i > 0 ==> currentPath == folderPath + "/" + Text.Join(pathSegments[..i], '/')
    {
      ghost var joined := Text.Join(pathSegments[..i + 1], '/');
      if i == 0 {
        assert pathSegments[..1] == [pathSegments[0]];
        assert joined == pathSegments[0];
      } else {
        Text.JoinSnoc(pathSegments[..i], pathSegments[i], '/');
        assert pathSegments[..i] + [pathSegments[i]] == pathSegments[..i + 1];
        assert joined == Text.Join(pathSegments[..i], '/') + "/" + pathSegments[i];
      }
      currentPath := currentPath + "/" + pathSegments[i];
      assert currentPath == folderPath + "/" + joined;
      var segmentName := pathSegments[i];
      var encodedPath := encode(currentPath);
      assert "/courses/" + encodedPath == SegmentTarget(folderPath, pathSegments, i + 1, encode);
      if i == |pathSegments| - 1 && !hasVideo {
        items' := items' + [Crumb(segmentName, None)];
      } else {
        items' := items' + [Crumb(segmentName, Some("/courses/" + encodedPath))];
      }
      assert items' == items + all[..i] + [all[i]];
      assert all[..i + 1] == all[..i] + [all[i]];
    }
    assert all[..|pathSegments|] == all;
  }

  /** Pushes the crumb for the video part of the route; a failed decode
      pushes the fallback crumb instead. */
  method PushVideoCrumb(items: seq<Crumb>, rawVideoPath: string, decode: string -> Option<string>)
    returns (items': seq<Crumb>)
    ensures items' == items + VideoCrumbs(rawVideoPath, decode)
  {
    items' := items;
    if rawVideoPath != "" {
      var decodedVideo := decode(rawVideoPath);
      if decodedVideo.None? {
        items' := items' + [FallbackCrumb];
      } else {
        var videoName := Text.LastSegmentOr(decodedVideo.value, "Vídeo");
        items' := items' + [Crumb(videoName, None)];
      }
    }
  }

  /** The effect that builds the trail, pushing one crumb at a time. */
  method BuildBreadcrumbs(pathname: string, rawCoursePath: string, rawVideoPath: string, folderPath: string,
                          decode: string -> Option<string>, encode: string -> string)
    returns (items: seq<Crumb>)
    ensures items == Breadcrumbs(pathname, rawCoursePath, rawVideoPath, folderPath, decode, encode)
  {
    items := [];
    if Text.StartsWith(pathname, CoursesRoute) {
      items := items + [CoursesCrumb];
      if rawCoursePath != "" {
        var decodedCourse := decode(rawCoursePath);
        if decodedCourse.None? {
          items := items + [FallbackCrumb];
          return;
        }
        var coursePath := decodedCourse.value;
        if folderPath != "" && Text.StartsWith(coursePath, folderPath) {
          var relativePath := coursePath[|folderPath|..];
          var pathSegments := Text.Segments(relativePath);
          items := PushSegmentCrumbs(items, folderPath, pathSegments, rawVideoPath != "", encode);
        } else {
          var folderName := Text.LastSegmentOr(coursePath, "Curso");
          items := items + [Crumb(folderName, Some("/courses/" + rawCoursePath))];
        }
        ghost var course := CourseCrumbs(coursePath, rawCoursePath, folderPath, rawVideoPath != "", encode);
        assert items == [CoursesCrumb] + course;
        items := PushVideoCrumb(items, rawVideoPath, decode);
        ghost var video := VideoCrumbs(rawVideoPath, decode);
        assert RouteCrumbs(rawCoursePath, rawVideoPath, folderPath, decode, encode) == course + video;
        Text.AppendAssoc([CoursesCrumb], course, video);
      }
    } else if pathname == DashboardRoute {
      items := items + [Crumb("Dashboard", None)];
    }
  }

  /** The trail's shape for every route. */
  lemma {:induction false} BreadcrumbsShape(pathname: string, rawCoursePath: string, rawVideoPath: string, folderPath: string,
                         decode: string -> Option<string>, encode: string -> string)
    ensures var r := Breadcrumbs(pathname, rawCoursePath, rawVideoPath, folderPath, decode, encode);
      && (pathname == DashboardRoute ==> r == [Crumb("Dashboard", None)])
      && (!Text.StartsWith(pathname, CoursesRoute) && pathname != DashboardRoute ==> r == [])
      && (Text.StartsWith(pathname, CoursesRoute) ==> |r| >= 1 && r[0] == CoursesCrumb)
      && (Text.StartsWith(pathname, CoursesRoute) && rawCoursePath == "" ==> r == [CoursesCrumb])
      && (Text.StartsWith(pathname, CoursesRoute) && rawCoursePath != "" && decode(rawCoursePath).None? ==>
            r == [CoursesCrumb, FallbackCrumb])
  {
    assert !Text.StartsWith(DashboardRoute, CoursesRoute) by {
      assert DashboardRoute[1] != CoursesRoute[1];
    }
  }

  /** Below the root: "Cursos", one crumb per segment below the root, then
      the video crumb. */
  lemma {:induction false} SegmentBranch(pathname: string, rawCoursePath: string, rawVideoPath: string, folderPath: string,
                      decode: string -> Option<string>, encode: string -> string, coursePath: string)
    requires Text.StartsWith(pathname, CoursesRoute) && rawCoursePath != ""
    requires decode(rawCoursePath) == Some(coursePath)
    requires folderPath != "" && Text.StartsWith(coursePath, folderPath)
    ensures Breadcrumbs(pathname, rawCoursePath, rawVideoPath, folderPath, decode, encode) ==
      [CoursesCrumb] + SegmentCrumbs(folderPath, Text.Segments(coursePath[|folderPath|..]), rawVideoPath != "", encode)
      + VideoCrumbs(rawVideoPath, decode)
  {
  }

  /** Outside the root: one crumb named after the course path's last segment. */
  lemma {:induction false} OutsideRootBranch(pathname: string, rawCoursePath: string, rawVideoPath: string, folderPath: string,
                          decode: string -> Option<string>, encode: string -> string, coursePath: string)
    requires Text.StartsWith(pathname, CoursesRoute) && rawCoursePath != ""
    requires decode(rawCoursePath) == Some(coursePath)
    requires folderPath == "" || !Text.StartsWith(coursePath, folderPath)
    ensures var r := Breadcrumbs(pathname, rawCoursePath, rawVideoPath, folderPath, decode, encode);
      && |r| == (if rawVideoPath == "" then 2 else 3)
      && r[1] == Crumb(Text.LastSegmentOr(coursePath, "Curso"), Some("/courses/" + rawCoursePath))
      && r[1].name != ""
  {
  }

  /** The segments below the root are non-empty and contain no '/'. */
  lemma {:induction false} SegmentsAreClean(s: string)
    ensures forall i :: 0 <= i < |Text.Segments(s)| ==> Text.Segments(s)[i] != "" && '/' !in Text.Segments(s)[i]
  {
    Text.SplitPartsSepFree(s, '/');
    var segs := Text.Segments(s);
    forall i | 0 <= i < |segs|
      ensures '/' !in segs[i]
    {
      var parts := Text.Split(s, '/');
      assert segs[i] in parts;
      var k :| 0 <= k < |parts| && parts[k] == segs[i];
    }
  }

  /** A crumb below the root leads to the page for the root plus that
      crumb's first segments: when decoding inverts encoding, the target's
      course path starts with the root and its segments below the root are
      exactly the first `k` segments of the current trail. */
  lemma {:induction false} SegmentTargetLeadsToPrefix(folderPath: string, coursePath: string, k: nat,
                                   decode: string -> Option<string>, encode: string -> string)
    requires folderPath != "" && Text.StartsWith(coursePath, folderPath)
    requires 1 <= k <= |Text.Segments(coursePath[|folderPath|..])|
    requires forall x :: decode(encode(x)) == Some(x)
    ensures var segs := Text.Segments(coursePath[|folderPath|..]);
      var target := SegmentTarget(folderPath, segs, k, encode);
      && Text.StartsWith(target, "/courses/")
      && decode(target[|"/courses/"|..]).Some?
      && var p := decode(target[|"/courses/"|..]).value;
         Text.StartsWith(p, folderPath) && Text.Segments(p[|folderPath|..]) == segs[..k]
  {
    var segs := Text.Segments(coursePath[|folderPath|..]);
    SegmentsAreClean(coursePath[|folderPath|..]);
    var prefix := segs[..k];
    assert forall i :: 0 <= i < |prefix| ==> prefix[i] == segs[i];
    var inner := folderPath + "/" + Text.Join(prefix, '/');
    var target := SegmentTarget(folderPath, segs, k, encode);
    assert target[|"/courses/"|..] == encode(inner);
    assert decode(encode(inner)) == Some(inner);
    assert inner[|folderPath|..] == "/" + Text.Join(prefix, '/');
    RootedJoinSegments(prefix);
  }

  /** Segments of a '/'-led join of clean segments are those segments. */
  lemma {:induction false} RootedJoinSegments(prefix: seq<string>)
    requires |prefix| >= 1
    requires forall i :: 0 <= i < |prefix| ==> prefix[i] != "" && '/' !in prefix[i]
    ensures Text.Segments("/" + Text.Join(prefix, '/')) == prefix
  {
    var parts := [""] + prefix;
    Text.JoinCons("", prefix, '/');
    assert "/" + Text.Join(prefix, '/') == Text.Join(parts, '/');
    forall i | 0 <= i < |parts|
      ensures '/' !in parts[i]
    {
      if i > 0 {
        assert parts[i] == prefix[i - 1];
      }
    }
    Text.SplitJoin(parts, '/');
    assert parts[1..] == prefix;
    assert Text.NonEmpty(parts) == Text.NonEmpty(prefix);
    Text.SegmentsJoin(prefix);
    Text.SplitJoin(prefix, '/');
  }

  /** A rendered breadcrumb list: links, separators and the current page. */
  datatype Rendered = PageItem(name: string) | LinkItem(name: string, href: string, target: Option<string>) | Separator

  /** The list's rendering: every crumb but the last is a link (to its path,
      or to "#" without one) followed by a separator; the last is the page. */
  function Render(items: seq<Crumb>): (r: seq<Rendered>)
    ensures |items| == 0 ==> r == []
    ensures |items| > 0 ==> |r| == 2 * |items| - 1
    ensures forall k :: 0 <= k < |r| ==> (r[k].Separator? <==> k % 2 == 1)
    ensures forall k :: 0 <= k < |r| ==> (r[k].PageItem? <==> k == |r| - 1)
    ensures forall j :: 0 <= j < |items| ==> r[2 * j].name == items[j].name
    ensures forall j :: 0 <= j < |items| - 1 ==> r[2 * j].target == items[j].path
  {
    if |items| == 0 then []
    else if |items| == 1 then [PageItem(items[0].name)]
    else
      var rest := Render(items[1..]);
      var head := [LinkItem(items[0].name, if items[0].path.Some? then items[0].path.value else "#", items[0].path), Separator];
      assert forall j :: 1 <= j < |items| ==> (head + rest)[2 * j] == rest[2 * (j - 1)];
      head + rest
  }

  /** Rendering n crumbs gives n - 1 separators. */
  lemma {:induction false} SeparatorCount(items: seq<Crumb>)
    requires |items| > 0
    ensures |set k | 0 <= k < |Render(items)| && Render(items)[k].Separator?| == |items| - 1
  {
    var r := Render(items);
    var seps := set k | 0 <= k < |r| && r[k].Separator?;
    var odd := set j | 0 <= j < |items| - 1 :: 2 * j + 1;
    assert seps == odd by {
      forall k | k in seps ensures k in odd {
        assert k == 2 * ((k - 1) / 2) + 1;
      }
    }
    OddCount(|items| - 1);
  }

  /** There are n numbers 2j + 1 with j < n. */
  lemma {:induction false} OddCount(n: nat)
    ensures |set j | 0 <= j < n :: 2 * j + 1| == n
  {
    if n > 0 {
      OddCount(n - 1);
      var s := set j | 0 <= j < n :: 2 * j + 1;
      var t := set j | 0 <= j < n - 1 :: 2 * j + 1;
      assert s == t + {2 * (n - 1) + 1};
      assert 2 * (n - 1) + 1 !in t;
    }
  }

  /** A click on a link navigates to its target, and to nothing without one. */
  function Click(item: Rendered): (r: Option<string>)
    ensures r.Some? ==> item.LinkItem? && item.target == r
    ensures item.LinkItem? && item.target.Some? ==> r == item.target
  {
    if item.LinkItem? then item.target else None
  }
}
