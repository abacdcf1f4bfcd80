/**
 * Link extraction of the crawler (`extractLinks`, scripts/scrape-website.js):
 * each `a[href]` of a page is resolved against the page URL, kept only on the
 * page's own host, reduced to its path (query and fragment dropped), stripped
 * of one trailing slash, and filtered by three case-insensitive regular
 * expressions. The survivors form a JavaScript `Set`, modelled as a sequence
 * without duplicates in insertion order.
 */
module LinkFilter {
  import opened Wrappers
  import opened JsStrings

  /** A crawl key: the path component of a URL. */
  type Path = string

  /** The two parts of a resolved `URL` object the crawler reads. */
  datatype Url = Url(hostname: string, pathname: string)

  /**
   * One `a[href]` element: the attribute text, and what `new URL(href, pageUrl)`
   * yields for it (None when the URL constructor throws).
   */
  datatype Anchor = Anchor(href: string, resolved: Option<Url>)

  /** A path as the `pathname` of an http(s) URL always is: it begins with `/`. */
  predicate IsRootedPath(p: Path)
  {
    |p| > 0 && p[0] == '/'
  }

  /** An anchor whose resolved URL, if any, has a rooted pathname, as `new URL` guarantees for http(s). */
  predicate WellFormedAnchor(a: Anchor)
  {
    a.resolved.Some? ==> IsRootedPath(a.resolved.value.pathname)
  }

  /** Strips one trailing slash, except from the root path. */
  function NormalizePath(path: Path): (r: Path)
    ensures path == "/" || !EndsWith(path, "/") ==> r == path
    ensures path != "/" && EndsWith(path, "/") ==> path == r + "/"
  {
    if path != "/" && EndsWith(path, "/") then
      var r := path[..|path| - 1];
      assert path == r + path[|path| - 1..];
      r
    else path
  }

  /** Stripping the slash keeps a path rooted. */
  lemma NormalizeKeepsRooted(path: Path)
    requires IsRootedPath(path)
    ensures IsRootedPath(NormalizePath(path))
  {
    if path != "/" && EndsWith(path, "/") {
      assert [path[0]] == "/";
    }
  }

  /** The extensions of the first filter, in the order of its alternation. */
  const BlockedExtensions: seq<string> := ["pdf", "jpg", "jpeg", "png", "gif", "zip", "xml", "json", "css", "js"]

  /** `/\.(pdf|jpg|jpeg|png|gif|zip|xml|json|css|js)$/i` */
  predicate HasBlockedExtension(path: Path)
  {
    EndsWithCI(path, ".pdf") || EndsWithCI(path, ".jpg") || EndsWithCI(path, ".jpeg") ||
    EndsWithCI(path, ".png") || EndsWithCI(path, ".gif") || EndsWithCI(path, ".zip") ||
    EndsWithCI(path, ".xml") || EndsWithCI(path, ".json") || EndsWithCI(path, ".css") ||
    EndsWithCI(path, ".js")
  }

  /** `/\/wp-admin|\/wp-content|\/wp-includes|\/feed/i` */
  predicate HasInternalSegment(path: Path)
  {
    ContainsCI(path, "/wp-admin") || ContainsCI(path, "/wp-content") ||
    ContainsCI(path, "/wp-includes") || ContainsCI(path, "/feed")
  }

  /** At the start of `s`: `/blog/` followed by at least one character `.` matches. */
  predicate BlogPostAt(s: string)
  {
    StartsWithCI(s, "/blog/") && |s| > 6 && !IsLineTerminator(s[6])
  }

  /** At the start of `s`: `/dddd/dd/` with ASCII digits. */
  predicate DateSegmentAt(s: string)
  {
    |s| >= 9 && s[0] == '/' &&
    IsAsciiDigit(s[1]) && IsAsciiDigit(s[2]) && IsAsciiDigit(s[3]) && IsAsciiDigit(s[4]) &&
    s[5] == '/' && IsAsciiDigit(s[6]) && IsAsciiDigit(s[7]) && s[8] == '/'
  }

  /** `/\/blog\/.+|\/\d{4}\/\d{2}\//i`, searched anywhere in the path. */
  predicate IsPostOrDatePath(s: string)
    decreases |s|
  {
    BlogPostAt(s) || DateSegmentAt(s) || (s != [] && IsPostOrDatePath(s[1..]))
  }

  /** The three filters of the crawler, all of which a kept path must pass. */
  predicate IsAcceptedPath(path: Path)
  {
    !HasBlockedExtension(path) && !HasInternalSegment(path) && !IsPostOrDatePath(path)
  }

  /** What one anchor contributes to the link set (None when it is skipped). */
  function LinkOf(a: Anchor, pageHost: string): Option<Path>
  {
    if a.href == "" then None
    else match a.resolved
      case None => None
      case Some(url) =>
        if url.hostname != pageHost then None
        else
          var path := NormalizePath(url.pathname);
          if IsAcceptedPath(path) then Some(path) else None
  }

  /** `Set.prototype.add` on an insertion-ordered set. */
  function AddToSet(links: seq<Path>, path: Path): seq<Path>
  {
    if path in links then links else links + [path]
  }

  /** What each anchor of a page contributes, in document order. */
  function LinkOptions(anchors: seq<Anchor>, pageHost: string): (r: seq<Option<Path>>)
  {
    seq(|anchors|, i requires 0 <= i < |anchors| => LinkOf(anchors[i], pageHost))
  }

  /** The insertion-ordered set built by adding every contributed path in turn. */
  function CollectLinks(opts: seq<Option<Path>>): seq<Path>
  {
    if opts == [] then []
    else
      var links := CollectLinks(opts[..|opts| - 1]);
      match opts[|opts| - 1]
      case None => links
      case Some(path) => AddToSet(links, path)
  }

  /** The link set `extractLinks` returns for the anchors of a page, in insertion order. */
  function AcceptedLinks(anchors: seq<Anchor>, pageHost: string): seq<Path>
  {
    CollectLinks(LinkOptions(anchors, pageHost))
  }

  predicate NoDuplicates(s: seq<Path>)
  {
    forall i, j :: 0 <= i < j < |s| ==> s[i] != s[j]
  }

  /** Adding to an insertion-ordered set never introduces a duplicate. */
  lemma {:induction false} CollectLinksNoDuplicates(opts: seq<Option<Path>>)
    ensures NoDuplicates(CollectLinks(opts))
  {
    if opts != [] {
      CollectLinksNoDuplicates(opts[..|opts| - 1]);
    }
  }

  /** A path is in the collected set exactly when some anchor contributes it. */
  lemma {:induction false} CollectLinksMember(opts: seq<Option<Path>>, p: Path)
    ensures p in CollectLinks(opts) <==> Some(p) in opts
  {
    if opts != [] {
      var front := opts[..|opts| - 1];
      CollectLinksMember(front, p);
      assert opts == front + [opts[|opts| - 1]];
    }
  }

  lemma AcceptedLinksNoDuplicates(anchors: seq<Anchor>, pageHost: string)
    ensures NoDuplicates(AcceptedLinks(anchors, pageHost))
  {
    CollectLinksNoDuplicates(LinkOptions(anchors, pageHost));
  }

  /** A path is in the link set exactly when some anchor of the page contributes it. */
  lemma AcceptedLinksMember(anchors: seq<Anchor>, pageHost: string, p: Path)
    ensures p in AcceptedLinks(anchors, pageHost) <==>
      exists i :: 0 <= i < |anchors| && LinkOf(anchors[i], pageHost) == Some(p)
  {
    var opts := LinkOptions(anchors, pageHost);
    CollectLinksMember(opts, p);
    if Some(p) in opts {
      var i :| 0 <= i < |opts| && opts[i] == Some(p);
      assert LinkOf(anchors[i], pageHost) == Some(p);
    }
    if exists i :: 0 <= i < |anchors| && LinkOf(anchors[i], pageHost) == Some(p) {
      var i :| 0 <= i < |anchors| && LinkOf(anchors[i], pageHost) == Some(p);
      assert opts[i] == Some(p);
    }
  }

  /** Every link in the set passed the host check and all three filters. */
  lemma AcceptedLinksAreAccepted(anchors: seq<Anchor>, pageHost: string, p: Path)
    requires p in AcceptedLinks(anchors, pageHost)
    ensures IsAcceptedPath(p)
    ensures exists i :: 0 <= i < |anchors| && anchors[i].href != "" && anchors[i].resolved.Some? &&
                        anchors[i].resolved.value.hostname == pageHost &&
                        NormalizePath(anchors[i].resolved.value.pathname) == p
  {
    AcceptedLinksMember(anchors, pageHost, p);
    var i :| 0 <= i < |anchors| && LinkOf(anchors[i], pageHost) == Some(p);
  }

  /** Every link taken from well-formed anchors is a rooted path. */
  lemma AcceptedLinksRooted(anchors: seq<Anchor>, pageHost: string, p: Path)
    requires forall i :: 0 <= i < |anchors| ==> WellFormedAnchor(anchors[i])
    requires p in AcceptedLinks(anchors, pageHost)
    ensures IsRootedPath(p)
  {
    AcceptedLinksMember(anchors, pageHost, p);
    var i :| 0 <= i < |anchors| && LinkOf(anchors[i], pageHost) == Some(p);
    NormalizeKeepsRooted(anchors[i].resolved.value.pathname);
  }

  /**
   * `extractLinks`: iterates over the anchors of a page, adding each kept path
   * to the link set.
   */
  method ExtractLinks(anchors: seq<Anchor>, pageHost: string) returns (links: seq<Path>)
    ensures links == AcceptedLinks(anchors, pageHost)
    ensures NoDuplicates(links)
    ensures forall p :: p in links ==> IsAcceptedPath(p)
    ensures forall p :: p in links <==> exists i :: 0 <= i < |anchors| && LinkOf(anchors[i], pageHost) == Some(p)
  {
    ghost var opts := LinkOptions(anchors, pageHost);
    links := [];
    for i := 0 to |anchors|
      invariant links == CollectLinks(opts[..i])
    {
      assert opts[..i + 1][..i] == opts[..i];
      assert opts[i] == LinkOf(anchors[i], pageHost);
      var href := anchors[i].href;
      if href == "" {
        continue;
      }
      match anchors[i].resolved {
        case None =>
        case Some(url) =>
          if url.hostname == pageHost {
            var path := url.pathname;
            if path != "/" && EndsWith(path, "/") {
              path := path[..|path| - 1];
            }
            if !HasBlockedExtension(path) && !HasInternalSegment(path) && !IsPostOrDatePath(path) {
              if path !in links {
                links := links + [path];
              }
            }
          }
      }
    }
    assert opts[..|anchors|] == opts;
    AcceptedLinksNoDuplicates(anchors, pageHost);
    forall p ensures p in links <==> exists i :: 0 <= i < |anchors| && LinkOf(anchors[i], pageHost) == Some(p) {
      AcceptedLinksMember(anchors, pageHost, p);
    }
    forall p | p in links ensures IsAcceptedPath(p) {
      AcceptedLinksAreAccepted(anchors, pageHost, p);
    }
  }

  /** `/about/` and `/about` give the same key; `/` stays `/`. */
  lemma {:induction false} TrailingSlashIsOneKey(p: Path)
    requires p != "" && !EndsWith(p, "/")
    ensures NormalizePath(p + "/") == p
    ensures NormalizePath(p) == p
  {
    assert (p + "/")[..|p|] == p;
    assert EndsWith(p + "/", "/") by {
      assert (p + "/")[|p + "/"| - 1..] == "/";
    }
  }

  /** Only one slash is stripped: `/a//` becomes `/a/`. */
  lemma DoubleSlashKeepsOne()
    ensures NormalizePath("/a//") == "/a/"
  {
  }

  /** A pattern none of whose first two characters appear side by side in `s` is not found in it. */
  lemma {:induction false} PairAbsentNoMatch(s: string, pat: string)
    requires |pat| >= 2
    requires forall i :: 0 <= i < |s| - 1 ==> !(LowerAscii(s[i]) == pat[0] && LowerAscii(s[i + 1]) == pat[1])
    ensures !ContainsCI(s, pat)
    decreases |s|
  {
    if s != [] {
      assert forall i :: 0 <= i < |s[1..]| ==> s[1..][i] == s[i + 1];
      PairAbsentNoMatch(s[1..], pat);
      assert |s| < 2 || !(LowerAscii(s[0]) == pat[0] && LowerAscii(s[1]) == pat[1]);
    }
  }

  /** No `/b` early enough for `/blog/x` and no `/d` early enough for `/dddd/dd/`: no post or date match. */
  lemma {:induction false} NoPostOrDateStart(s: string)
    requires forall i :: 0 <= i < |s| - 6 ==> !(s[i] == '/' && LowerAscii(s[i + 1]) == 'b')
    requires forall i :: 0 <= i < |s| - 8 ==> !(s[i] == '/' && IsAsciiDigit(s[i + 1]))
    ensures !IsPostOrDatePath(s)
    decreases |s|
  {
    if s != [] {
      assert forall i :: 0 <= i < |s[1..]| ==> s[1..][i] == s[i + 1];
      NoPostOrDateStart(s[1..]);
      assert |s| <= 6 || !(s[0] == '/' && LowerAscii(s[1]) == 'b');
    }
  }

  /** A suffix that begins with a dot cannot end a path that has no dot. */
  lemma NoDotNoSuffix(p: Path, pat: string)
    requires |pat| > 0 && pat[0] == '.'
    requires forall i :: 0 <= i < |p| ==> p[i] != '.'
    ensures !EndsWithCI(p, pat)
  {
    if |pat| <= |p| {
      assert p[|p| - |pat|..][0] == p[|p| - |pat|];
    }
  }

  /** A path without a dot has none of the blocked extensions. */
  lemma NoDotNoBlockedExtension(p: Path)
    requires forall i :: 0 <= i < |p| ==> p[i] != '.'
    ensures !HasBlockedExtension(p)
  {
    NoDotNoSuffix(p, ".pdf");
    NoDotNoSuffix(p, ".jpg");
    NoDotNoSuffix(p, ".jpeg");
    NoDotNoSuffix(p, ".png");
    NoDotNoSuffix(p, ".gif");
    NoDotNoSuffix(p, ".zip");
    NoDotNoSuffix(p, ".xml");
    NoDotNoSuffix(p, ".json");
    NoDotNoSuffix(p, ".css");
    NoDotNoSuffix(p, ".js");
  }

  /** A path with no `/w` and no `/f` contains none of the WordPress or feed segments. */
  lemma NoInternalSegmentByShape(p: Path)
    requires forall i :: 0 <= i < |p| - 1 ==> !(p[i] == '/' && (LowerAscii(p[i + 1]) == 'w' || LowerAscii(p[i + 1]) == 'f'))
    ensures !HasInternalSegment(p)
  {
    PairAbsentNoMatch(p, "/wp-admin");
    PairAbsentNoMatch(p, "/wp-content");
    PairAbsentNoMatch(p, "/wp-includes");
    PairAbsentNoMatch(p, "/feed");
  }

  /**
   * A path with no dot, no `/w` or `/f`, and no `/b` or `/<digit>` early enough to
   * begin a post or date segment passes every filter.
   */
  lemma AcceptedByShape(p: Path)
    requires forall i :: 0 <= i < |p| ==> p[i] != '.'
    requires forall i :: 0 <= i < |p| - 1 ==> !(p[i] == '/' && (LowerAscii(p[i + 1]) == 'w' || LowerAscii(p[i + 1]) == 'f'))
    requires forall i :: 0 <= i < |p| - 6 ==> !(p[i] == '/' && LowerAscii(p[i + 1]) == 'b')
    requires forall i :: 0 <= i < |p| - 8 ==> !(p[i] == '/' && IsAsciiDigit(p[i + 1]))
    ensures IsAcceptedPath(p)
  {
    NoDotNoBlockedExtension(p);
    NoInternalSegmentByShape(p);
    NoPostOrDateStart(p);
  }

  /** The blog listing page is kept. */
  lemma BlogListingKept()
    ensures IsAcceptedPath("/blog")
  {
    AcceptedByShape("/blog");
  }

  /** An item below the blog listing is dropped, whatever its letter case. */
  lemma BlogPostDropped()
    ensures !IsAcceptedPath("/blog/my-post-title")
    ensures !IsAcceptedPath("/BLOG/My-Post")
  {
    assert BlogPostAt("/blog/my-post-title");
    assert BlogPostAt("/BLOG/My-Post");
  }

  /** `"." + e` for each blocked extension, written out. */
  lemma BlockedSuffixes(e: string)
    requires e in BlockedExtensions
    ensures "." + e in [".pdf", ".jpg", ".jpeg", ".png", ".gif", ".zip", ".xml", ".json", ".css", ".js"]
  {
    if e == "pdf" { assert "." + e == ".pdf"; }
    else if e == "jpg" { assert "." + e == ".jpg"; }
    else if e == "jpeg" { assert "." + e == ".jpeg"; }
    else if e == "png" { assert "." + e == ".png"; }
    else if e == "gif" { assert "." + e == ".gif"; }
    else if e == "zip" { assert "." + e == ".zip"; }
    else if e == "xml" { assert "." + e == ".xml"; }
    else if e == "json" { assert "." + e == ".json"; }
    else if e == "css" { assert "." + e == ".css"; }
    else { assert "." + e == ".js"; }
  }

  /** A path ending in a dot and a blocked extension, in any letter case, is dropped. */
  lemma ImagesDropped(p: Path, e: string)
    requires e in BlockedExtensions && EndsWithCI(p, "." + e)
    ensures HasBlockedExtension(p) && !IsAcceptedPath(p)
  {
    BlockedSuffixes(e);
  }

  /** Images are dropped, whatever their letter case. */
  lemma BlockedExtensionExamples()
    ensures !IsAcceptedPath("/assets/logo.png")
    ensures !IsAcceptedPath("/IMAGES/PHOTO.JPEG")
  {
    assert EndsWithCI("/assets/logo.png", ".png");
    assert EndsWithCI("/IMAGES/PHOTO.JPEG", ".jpeg");
  }

  /** WordPress administration pages are dropped. */
  lemma AdminDropped()
    ensures !IsAcceptedPath("/wp-admin/options.php")
  {
    assert StartsWithCI("/wp-admin/options.php", "/wp-admin");
  }

  /** Slash stripping on the paths the filter examples start from. */
  lemma NormalizationExamples()
    ensures NormalizePath("/blog/") == "/blog"
    ensures NormalizePath("/2024/05/") == "/2024/05"
    ensures NormalizePath("/2024/05/some-post") == "/2024/05/some-post"
  {
  }

  /**
   * The date filter is applied after slash stripping, so the month archive
   * `/2024/05/` is reduced to `/2024/05` and kept.
   */
  lemma DateArchiveKeptAfterStripping()
    ensures IsAcceptedPath(NormalizePath("/2024/05/"))
  {
    NormalizationExamples();
    AcceptedByShape("/2024/05");
  }

  /** A dated post keeps its date segment and is dropped. */
  lemma DatedPostDropped()
    ensures !IsAcceptedPath(NormalizePath("/2024/05/some-post"))
  {
    NormalizationExamples();
    assert DateSegmentAt("/2024/05/some-post");
  }
}
