/**
 * Resolving a page path and deciding permission (`AdminApp.serve_page`).
 * Pages are registered under keys such as "/" or "/detail"; the requested
 * path arrives without its leading slash.
 */
module Pages {
  import opened Wrappers
  import opened Permissions
  import opened Text
  import opened Errors

  /** A registered page. Its builder is not part of this model. */
  datatype Page = Page(url: string, name: string, authNeeded: Option<Tag>)

  /** `self.pages`: page key to page. */
  type PageTable = map<string, Page>

  /** How a request for a page path is answered: the page under the full
      path, the page under the first segment with the second segment as its
      sub-path, "403" or "404". */
  datatype Resolution = Exact(url: string) | Sub(base: string, seg: string) | Forbidden | NotFound

  /** `serve_page`, without building the page. */
  function ServePage(pages: PageTable, url: string, auth: seq<Tag>): Resolution
  {
    var urlParts := Split(url, '/');
    var fullUrl := "/" + url;
    var baseUrl := "/" + urlParts[0];
    if fullUrl in pages then
      if Permits(pages[fullUrl].authNeeded, auth) then Exact(fullUrl) else Forbidden
    else if baseUrl in pages && |urlParts| > 1 then
      if Permits(pages[baseUrl].authNeeded, auth) then Sub(baseUrl, urlParts[1]) else Forbidden
    else
      NotFound
  }

  /** The error element `serve_page` returns, if any. */
  function PageError(r: Resolution): (e: Option<ErrorResponse>)
    ensures e.Some? <==> r.Forbidden? || r.NotFound?
    ensures r.Forbidden? ==> e.value.errorType == "403"
    ensures r.NotFound? ==> e.value.errorType == "404"
  {
    match r
    case Forbidden => Some(ErrorResponse("No Permission", "Please login first or contact your administrator", "403"))
    case NotFound => Some(ErrorResponse("Page not Found", DefaultErrorMessage, "404"))
    case _ => None
  }

  /** A page registered under the full path takes precedence over any
      sub-path match: the answer is that page, or "403" if it is not permitted. */
  lemma ExactMatchWins(pages: PageTable, url: string, auth: seq<Tag>)
    requires "/" + url in pages
    ensures ServePage(pages, url, auth) ==
      (if Permits(pages["/" + url].authNeeded, auth) then Exact("/" + url) else Forbidden)
  {
  }

  lemma {:induction false} JoinTwoOrMore(parts: seq<string>, sep: char)
    requires |parts| >= 2
    ensures parts[0] + [sep] + parts[1] <= Join(parts, sep)
    ensures |parts| == 2 ==> Join(parts, sep) == parts[0] + [sep] + parts[1]
    ensures |parts| > 2 ==> Join(parts, sep) == parts[0] + [sep] + parts[1] + [sep] + Join(parts[2..], sep)
  {
    var tail := parts[1..];
    if |parts| > 2 {
      assert tail[1..] == parts[2..];
      assert Join(tail, sep) == parts[1] + [sep] + Join(tail[1..], sep);
    }
  }

  /** A sub-path answer comes from a path `base[1..] + "/" + seg + tail`
      where neither the first segment nor `seg` contains a slash and `tail`
      is empty or starts a further segment (which is ignored); no page is
      registered under the full path, and the caller may see the base page. */
  lemma SubShape(pages: PageTable, url: string, auth: seq<Tag>)
    requires ServePage(pages, url, auth).Sub?
    ensures var Sub(base, seg) := ServePage(pages, url, auth);
      && "/" + url !in pages
      && base in pages && Permits(pages[base].authNeeded, auth)
      && |base| >= 1 && base[0] == '/' && '/' !in base[1..] && '/' !in seg
      && base[1..] + "/" + seg <= url
      && (|url| == |base| + |seg| || url[|base| + |seg|] == '/')
  {
    var parts := Split(url, '/');
    JoinSplit(url, '/');
    SplitPiecesSeparatorFree(url, '/');
    JoinTwoOrMore(parts, '/');
    assert ("/" + parts[0])[1..] == parts[0];
    if |parts| > 2 {
      var prefix := parts[0] + "/" + parts[1];
      assert url == prefix + ("/" + Join(parts[2..], '/'));
      assert url[|prefix|] == '/';
    }
  }

  lemma {:induction false} FirstPieceOf(seg: string, tail: string)
    requires '/' !in seg
    requires tail == [] || tail[0] == '/'
    ensures Split(seg + tail, '/')[0] == seg
  {
    if tail == [] {
      assert seg + tail == seg;
      SplitSeparatorFree(seg, '/');
    } else {
      assert seg + tail == seg + ['/'] + tail[1..];
      SplitAtFirstSeparator(seg, tail[1..], '/');
    }
  }

  /** The sub-path case of `serve_page`, in terms of the split pieces. */
  lemma ServePageBySegments(pages: PageTable, url: string, auth: seq<Tag>)
    requires "/" + url !in pages
    requires |Split(url, '/')| > 1
    requires "/" + Split(url, '/')[0] in pages
    requires Permits(pages["/" + Split(url, '/')[0]].authNeeded, auth)
    ensures ServePage(pages, url, auth) == Sub("/" + Split(url, '/')[0], Split(url, '/')[1])
  {
  }

  /** Conversely, a request for `head/seg...` with no page under the full
      path, and a permitted page under "/head", is answered by that page
      with the second segment `seg` alone as its sub-path. */
  lemma SubComplete(pages: PageTable, head: string, seg: string, tail: string, auth: seq<Tag>)
    requires '/' !in head && '/' !in seg
    requires tail == [] || tail[0] == '/'
    requires "/" + (head + "/" + seg + tail) !in pages
    requires "/" + head in pages && Permits(pages["/" + head].authNeeded, auth)
    ensures ServePage(pages, head + "/" + seg + tail, auth) == Sub("/" + head, seg)
  {
    var url := head + "/" + seg + tail;
    assert url == head + ['/'] + (seg + tail);
    SplitAtFirstSeparator(head, seg + tail, '/');
    FirstPieceOf(seg, tail);
    ServePageBySegments(pages, url, auth);
  }

  /** A path with no slash is only ever answered by a page under exactly that path. */
  lemma SingleSegmentNeedsExactPage(pages: PageTable, url: string, auth: seq<Tag>)
    requires '/' !in url
    requires "/" + url !in pages
    ensures ServePage(pages, url, auth) == NotFound
  {
    SplitSeparatorFree(url, '/');
  }

  /** Whether a path is found does not depend on who asks. */
  lemma NotFoundIndependentOfTags(pages: PageTable, url: string, auth1: seq<Tag>, auth2: seq<Tag>)
    ensures ServePage(pages, url, auth1).NotFound? <==> ServePage(pages, url, auth2).NotFound?
  {
  }

  /** "403" is answered only when the page the request matched (the one under
      the full path if there is one, else the one under the first segment)
      needs a tag the caller lacks. */
  lemma ForbiddenNeedsMissingTag(pages: PageTable, url: string, auth: seq<Tag>)
    requires ServePage(pages, url, auth).Forbidden?
    ensures var key := if "/" + url in pages then "/" + url else "/" + Split(url, '/')[0];
      && key in pages && pages[key].authNeeded.Some? && pages[key].authNeeded.value !in auth
  {
  }

  /** A request for `head/seg...` with no page under the full path, whose
      page under "/head" needs a tag the caller lacks, is answered "403". */
  lemma SubForbidden(pages: PageTable, head: string, seg: string, tail: string, auth: seq<Tag>)
    requires '/' !in head && '/' !in seg
    requires tail == [] || tail[0] == '/'
    requires "/" + (head + "/" + seg + tail) !in pages
    requires "/" + head in pages && !Permits(pages["/" + head].authNeeded, auth)
    ensures ServePage(pages, head + "/" + seg + tail, auth) == Forbidden
  {
    var url := head + "/" + seg + tail;
    assert url == head + ['/'] + (seg + tail);
    SplitAtFirstSeparator(head, seg + tail, '/');
  }

  /** A path with a slash is not found when no page is registered under the
      full path nor under its first segment. */
  lemma MultiSegmentNotFound(pages: PageTable, head: string, rest: string, auth: seq<Tag>)
    requires '/' !in head
    requires "/" + (head + "/" + rest) !in pages
    requires "/" + head !in pages
    ensures ServePage(pages, head + "/" + rest, auth) == NotFound
  {
    var url := head + "/" + rest;
    assert url == head + ['/'] + rest;
    SplitAtFirstSeparator(head, rest, '/');
  }

  /** A caller with more tags is answered the same page or a better one:
      "403" may turn into the page, nothing else changes. */
  lemma MoreTagsNoLessAccess(pages: PageTable, url: string, fewer: seq<Tag>, more: seq<Tag>)
    requires forall t :: t in fewer ==> t in more
    ensures var r1, r2 := ServePage(pages, url, fewer), ServePage(pages, url, more);
      r1 == r2 || (r1.Forbidden? && (r2.Exact? || r2.Sub?))
  {
    var parts := Split(url, '/');
    PermitsMonotone(if "/" + url in pages then pages["/" + url].authNeeded else None, fewer, more);
    if "/" + parts[0] in pages {
      PermitsMonotone(pages["/" + parts[0]].authNeeded, fewer, more);
    }
  }

  /** Pages at "/a" and "/b", the second needing "admin". */
  const ExamplePages: PageTable := map["/a" := Page("/a", "A", None), "/b" := Page("/b", "B", Some("admin"))]

  /** "a/x" is page "/a" with sub-path "x"; deeper segments are ignored, and
      a trailing slash gives the empty sub-path. */
  lemma SubPathExamples()
    ensures ServePage(ExamplePages, "a/x", []) == Sub("/a", "x")
    ensures ServePage(ExamplePages, "a/x/y", []) == Sub("/a", "x")
    ensures ServePage(ExamplePages, "a/", []) == Sub("/a", "")
  {
    assert "/" + "a" == "/a";
    assert "/a/x" !in ExamplePages && "/a/x/y" !in ExamplePages && "/a/" !in ExamplePages;
    assert "/" + ("a" + "/" + "x" + "") == "/a/x";
    assert "/" + ("a" + "/" + "x" + "/y") == "/a/x/y";
    assert "/" + ("a" + "/" + "" + "") == "/a/";
    SubComplete(ExamplePages, "a", "x", "", []);
    SubComplete(ExamplePages, "a", "x", "/y", []);
    SubComplete(ExamplePages, "a", "", "", []);
    assert "a" + "/" + "x" + "" == "a/x";
    assert "a" + "/" + "x" + "/y" == "a/x/y";
    assert "a" + "/" + "" + "" == "a/";
  }

  /** "c" matches no page. */
  lemma NotFoundExample()
    ensures ServePage(ExamplePages, "c", []) == NotFound
  {
    assert "/" + "c" == "/c";
    assert "/c" !in ExamplePages;
    SingleSegmentNeedsExactPage(ExamplePages, "c", []);
  }

  /** "b" is refused to a caller tagged "user" and served to one tagged "admin". */
  lemma AuthExamples()
    ensures ServePage(ExamplePages, "b", ["user"]) == Forbidden
    ensures ServePage(ExamplePages, "b", ["admin"]) == Exact("/b")
  {
    assert "/" + "b" == "/b";
    SplitSeparatorFree("b", '/');
  }
}
