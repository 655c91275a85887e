/** `RelativeUrlHelper`: every site-local URL the web pages generate is rewritten relative to the
    current request path, so that the pages work behind a reverse proxy that mounts the site
    under a prefix. */
module RelativeUrl {
  import opened Wrappers
  import opened Text

  /** How many directory levels the request path is below the site root: the number of pieces
      `Path.Split('/')` yields, minus two. A path without '/' gives -1. */
  function Depth(path: string): (d: int)
    ensures d == Count(path, '/') - 1
  {
    SplitLength(path, '/');
    |Split(path, '/')| - 2
  }

  /** `MakeUrlRelative` at a given depth, stated directly. */
  function Relative(url: Option<string>, depth: int): (r: Option<string>)
    ensures url.None? <==> r.None?
    ensures url.Some? && (|url.value| == 0 || url.value[0] != '/') ==> r == url
    ensures url.Some? && |url.value| > 2 && url.value[1] == '/' ==> r == url
  {
    match url
    case None => None
    case Some(u) =>
      if |u| == 0 || u[0] != '/' then url
      else if |u| > 2 && u[1] == '/' then url
      else if depth == 0 then Some(u[1..])
      else if depth < 0 then url
      else Some(Repeat("../", depth) + u[1..])
  }

  /** The source's loop: the first pass prepends "..", every later pass "../". */
  method MakeUrlRelative(url: Option<string>, path: string) returns (r: Option<string>)
    ensures r == Relative(url, Depth(path))
  {
    if url.None? {
      return None;
    }
    var u := url.value;
    if |u| == 0 || u[0] != '/' {
      return url;
    }
    if |u| > 2 && u[1] == '/' {
      return url;
    }
    var depth := Depth(path);
    if depth == 0 {
      return Some(u[1..]);
    }
    var i := 0;
    while i < depth
      invariant 0 <= i && (i <= depth || i == 0)
      invariant i == 0 ==> u == url.value
      invariant i > 0 ==> u == Repeat("../", i) + url.value[1..]
    {
      if i == 0 {
        assert ".." + u == Repeat("../", 1) + u[1..] by {
          assert Repeat("../", 1) == "../";
          assert u == "/" + u[1..];
        }
        u := ".." + u;
      } else {
        assert "../" + u == Repeat("../", i + 1) + url.value[1..] by {
          assert Repeat("../", i + 1) == "../" + Repeat("../", i);
        }
        u := "../" + u;
      }
      i := i + 1;
    }
    return Some(u);
  }

  /** `IsLocalUrl`: anything starting with "../" is local; everything else is up to the wrapped
      helper, whose answer `inner` stands for. */
  function IsLocalUrl(url: Option<string>, inner: Option<string> -> bool): (r: bool)
    ensures url.Some? && StartsWith(url.value, "../") ==> r
    ensures !(url.Some? && StartsWith(url.value, "../")) ==> r == inner(url)
  {
    if url.Some? && StartsWith(url.value, "../") then true else inner(url)
  }

  /** The directory segments of a path: what lies between its first and its last '/'. */
  function Directories(path: string): seq<string> {
    var parts := Split(path, '/');
    if |parts| >= 2 then parts[1..|parts| - 1] else []
  }

  /** The request path has as many directories as its depth. */
  lemma DirectoriesCount(path: string)
    requires '/' in path
    ensures |Directories(path)| == Depth(path)
  {
    SplitLength(path, '/');
    if Count(path, '/') == 0 {
      CountZero(path, '/');
    }
  }

  /** A string with no occurrence of `c` has a count of zero, and conversely. */
  lemma {:induction false} CountZero(s: string, c: char)
    ensures Count(s, c) == 0 <==> c !in s
  {
    if |s| > 0 {
      CountZero(s[1..], c);
      assert s == [s[0]] + s[1..];
    }
  }

  // ---------------------------------------------------------------------------------------------
  // How a browser resolves a reference against the page it is on (section 5 of RFC 3986)
  // ---------------------------------------------------------------------------------------------

  /** Where the path of a reference ends: at its first '?' or '#'. */
  function PathEnd(s: string): (n: nat)
    ensures n <= |s|
    ensures forall i :: 0 <= i < n ==> s[i] != '?' && s[i] != '#'
    ensures n < |s| ==> s[n] == '?' || s[n] == '#'
  {
    if |s| == 0 || s[0] == '?' || s[0] == '#' then 0 else 1 + PathEnd(s[1..])
  }

  predicate IsAlpha(c: char) {
    'a' <= c <= 'z' || 'A' <= c <= 'Z'
  }

  predicate IsSchemeChar(c: char) {
    IsAlpha(c) || '0' <= c <= '9' || c == '+' || c == '-' || c == '.'
  }

  /** Section 3.1 of RFC 3986: a reference starting with a letter and scheme characters up to a
      ':' names a scheme, and so is not a path on this site. */
  predicate HasScheme(rel: string) {
    exists i :: 1 <= i < |rel| && rel[i] == ':' && IsAlpha(rel[0]) && forall j :: 1 <= j < i ==> IsSchemeChar(rel[j])
  }

  predicate IsDot(segment: string) {
    segment == "." || segment == ".."
  }

  /** Section 5.2.4 of RFC 3986 over path segments, appended to `out`: "." is dropped, ".." drops
      the segment before it (nothing above the root), and a path ending in a dot segment ends
      in '/'. */
  function RemoveDots(out: seq<string>, segments: seq<string>): (r: seq<string>)
    ensures |segments| == 0 ==> r == out
    ensures |segments| >= 1 ==> |r| >= 1
    decreases |segments|
  {
    if |segments| == 0 then out
    else if segments[0] == "." then
      if |segments| == 1 then out + [""] else RemoveDots(out, segments[1..])
    else if segments[0] == ".." then
      var up := if |out| > 0 then out[..|out| - 1] else [];
      if |segments| == 1 then up + [""] else RemoveDots(up, segments[1..])
    else RemoveDots(out + [segments[0]], segments[1..])
  }

  /** The target of the site-absolute reference "/" + `u`: its path without dot segments, then
      its query and fragment. */
  function Rooted(u: string): string {
    var n := PathEnd(u);
    "/" + Join(RemoveDots([], Split(u[..n], '/')), '/') + u[n..]
  }

  /** Resolving a reference against the path of the page (section 5.2 of RFC 3986). A reference
      with an authority or a scheme leaves the site (`None`); one with an empty path keeps the
      page's path; one starting with '/' replaces the path; any other is merged with the page's
      directories (section 5.2.3). Dot segments are removed from the result. The page's own
      query is not part of this model. */
  function Resolve(base: string, rel: string): (r: Option<string>)
    ensures r.None? <==> StartsWith(rel, "//") || HasScheme(rel)
    ensures r.Some? && PathEnd(rel) == 0 ==> r.value == base + rel
    ensures r.Some? && PathEnd(rel) > 0 ==> StartsWith(r.value, "/")
  {
    if StartsWith(rel, "//") || HasScheme(rel) then None
    else
      var n := PathEnd(rel);
      var path := rel[..n];
      if n == 0 then Some(base + rel)
      else if path[0] == '/' then Some("/" + Join(RemoveDots([], Split(path[1..], '/')), '/') + rel[n..])
      else Some("/" + Join(RemoveDots([], Directories(base) + Split(path, '/')), '/') + rel[n..])
  }

  /** The paths the application is handed: the server has already removed dot segments. */
  predicate NormalPath(path: string) {
    && '/' in path
    && forall k :: 0 <= k < |Directories(path)| ==> !IsDot(Directories(path)[k])
  }

  /** `k` ".." segments. */
  function Ups(k: nat): (r: seq<string>)
    ensures |r| == k && forall i :: 0 <= i < k ==> r[i] == ".."
  {
    seq(k, _ => "..")
  }

  lemma {:induction false} PathEndAfter(pre: string, s: string)
    requires forall i :: 0 <= i < |pre| ==> pre[i] != '?' && pre[i] != '#'
    ensures PathEnd(pre + s) == |pre| + PathEnd(s)
  {
    if |pre| > 0 {
      assert (pre + s)[0] == pre[0];
      assert (pre + s)[1..] == pre[1..] + s;
      PathEndAfter(pre[1..], s);
    } else {
      assert pre + s == s;
    }
  }

  lemma {:induction false} PathEndUp(k: nat, s: string)
    ensures PathEnd(Repeat("../", k) + s) == 3 * k + PathEnd(s)
  {
    if k > 0 {
      assert Repeat("../", k) + s == "../" + (Repeat("../", k - 1) + s);
      PathEndAfter("../", Repeat("../", k - 1) + s);
      PathEndUp(k - 1, s);
    } else {
      assert Repeat("../", k) + s == s;
    }
  }

  lemma {:induction false} SplitUp(k: nat, s: string)
    ensures Split(Repeat("../", k) + s, '/') == Ups(k) + Split(s, '/')
  {
    if k > 0 {
      var rest := Repeat("../", k - 1) + s;
      assert Repeat("../", k) + s == ".." + ['/'] + rest;
      SplitCons("..", '/', rest);
      SplitUp(k - 1, s);
      assert Ups(k) == [".."] + Ups(k - 1);
    } else {
      assert Repeat("../", k) + s == s;
      assert Ups(k) == [];
    }
  }

  /** Segments without dot segments are kept as they are. */
  lemma {:induction false} RemoveDotsPlain(out: seq<string>, xs: seq<string>, ys: seq<string>)
    requires forall i :: 0 <= i < |xs| ==> !IsDot(xs[i])
    ensures RemoveDots(out, xs + ys) == RemoveDots(out + xs, ys)
    decreases |xs|
  {
    if |xs| > 0 {
      assert (xs + ys)[0] == xs[0];
      assert (xs + ys)[1..] == xs[1..] + ys;
      RemoveDotsPlain(out + [xs[0]], xs[1..], ys);
      assert out + [xs[0]] + xs[1..] == out + xs;
    } else {
      assert xs + ys == ys;
      assert out + xs == out;
    }
  }

  /** Each ".." followed by more segments drops one kept segment. */
  lemma {:induction false} RemoveDotsUp(out: seq<string>, k: nat, ys: seq<string>)
    requires k <= |out| && |ys| >= 1
    ensures RemoveDots(out, Ups(k) + ys) == RemoveDots(out[..|out| - k], ys)
  {
    if k > 0 {
      var segments := Ups(k) + ys;
      assert segments[0] == "..";
      assert segments[1..] == Ups(k - 1) + ys;
      RemoveDotsUp(out[..|out| - 1], k - 1, ys);
      assert out[..|out| - 1][..|out| - 1 - (k - 1)] == out[..|out| - k];
    } else {
      assert Ups(k) + ys == ys;
      assert out[..|out| - k] == out;
    }
  }

  /** A site-absolute reference resolves to its rooted target. */
  lemma ResolveRooted(base: string, u: string)
    requires !StartsWith(u, "/")
    ensures Resolve(base, "/" + u) == Some(Rooted(u))
  {
    var rel := "/" + u;
    assert !IsAlpha(rel[0]);
    if |u| > 0 {
      assert rel[1] == u[0] != '/';
    }
    PathEndAfter("/", u);
    var n := PathEnd(u);
    assert rel[..1 + n][1..] == u[..n];
    assert rel[1 + n..] == u[n..];
  }

  /** From a page at depth `k` > 0, `k` "../" steps climb back to the root. */
  lemma ResolveUp(base: string, u: string)
    requires NormalPath(base) && Depth(base) > 0
    ensures Resolve(base, Repeat("../", Depth(base)) + u) == Some(Rooted(u))
  {
    var k := Depth(base);
    DirectoriesCount(base);
    var up := Repeat("../", k);
    var rel := up + u;
    assert up == "../" + Repeat("../", k - 1);
    assert rel[0] == '.' && !IsAlpha(rel[0]);
    assert !StartsWith(rel, "//");
    PathEndUp(k, u);
    var n := PathEnd(u);
    assert rel[..3 * k + n] == up + u[..n];
    assert rel[3 * k + n..] == u[n..];
    SplitUp(k, u[..n]);
    var dirs := Directories(base);
    var rest := Split(u[..n], '/');
    assert dirs + Split(up + u[..n], '/') == dirs + (Ups(k) + rest);
    RemoveDotsPlain([], dirs, Ups(k) + rest);
    RemoveDotsUp(dirs, k, rest);
    assert [] + dirs == dirs;
    assert dirs[..|dirs| - k] == [];
  }

  /** From a page at the site root, "./" stays at the root. */
  lemma ResolveHere(base: string, u: string)
    requires NormalPath(base) && Depth(base) == 0
    ensures Resolve(base, "./" + u) == Some(Rooted(u))
  {
    DirectoriesCount(base);
    var rel := "./" + u;
    assert !IsAlpha(rel[0]) && !StartsWith(rel, "//");
    PathEndAfter("./", u);
    var n := PathEnd(u);
    assert rel[..2 + n] == "." + ['/'] + u[..n];
    assert rel[2 + n..] == u[n..];
    SplitCons(".", '/', u[..n]);
    var rest := Split(u[..n], '/');
    assert Directories(base) + Split(rel[..2 + n], '/') == ["."] + rest;
    assert (["."] + rest)[1..] == rest;
  }

  /** From a page at the site root, a path reference with no scheme stays at the root. */
  lemma ResolveSame(base: string, u: string)
    requires NormalPath(base) && Depth(base) == 0
    requires PathEnd(u) > 0 && !HasScheme(u) && !StartsWith(u, "/")
    ensures Resolve(base, u) == Some(Rooted(u))
  {
    DirectoriesCount(base);
    assert !StartsWith(u, "//");
    assert Directories(base) + Split(u[..PathEnd(u)], '/') == Split(u[..PathEnd(u)], '/');
  }

  // ---------------------------------------------------------------------------------------------
  // The rewriting against the resolver
  // ---------------------------------------------------------------------------------------------

  /** Where the source's rewriting keeps its promise: on a page below the root, and at the root
      for a URL with a path that names no scheme, the rewritten reference leads where the URL
      led. */
  lemma RelativeRoundTrip(url: string, path: string)
    requires |url| >= 1 && url[0] == '/' && url != "//" && NormalPath(path)
    requires Depth(path) == 0 ==> PathEnd(url[1..]) > 0 && !HasScheme(url[1..])
    ensures Relative(Some(url), Depth(path)).Some?
    ensures Resolve(path, Relative(Some(url), Depth(path)).value) == Resolve(path, url)
  {
    DirectoriesCount(path);
    if !(|url| > 2 && url[1] == '/') {
      var u := url[1..];
      assert url == "/" + u;
      assert !StartsWith(u, "/");
      ResolveRooted(path, u);
      if Depth(path) == 0 {
        ResolveSame(path, u);
      } else {
        ResolveUp(path, u);
      }
    }
  }

  /** What the page sees is local: a URL rewritten below the root starts with "../", so the
      wrapped helper is never consulted for it. */
  lemma RewrittenUrlIsLocal(url: string, path: string, inner: Option<string> -> bool)
    requires |url| >= 1 && url[0] == '/' && !(|url| > 2 && url[1] == '/') && Depth(path) > 0
    ensures IsLocalUrl(Relative(Some(url), Depth(path)), inner)
  {
    var k := Depth(path);
    var r := Repeat("../", k) + url[1..];
    assert Repeat("../", k) == "../" + Repeat("../", k - 1);
    assert r[..3] == "../";
  }

  lemma DepthOfTopPage(page: string)
    requires '/' !in page
    ensures Depth("/" + page) == 0
  {
    CountZero(page, '/');
    assert ("/" + page)[1..] == page;
  }

  /** The guard for "//" URLs needs a third character, so the URL "//" itself falls through and
      at the site root becomes "/", an absolute path. */
  lemma DoubleSlashBecomesRoot()
    ensures Relative(Some("//"), Depth("/index")) == Some("/")
  {
    DepthOfTopPage("index");
  }

  /** "//" is a reference with an empty authority, which leaves the site's paths; its rewriting
      "/" leads to the site root instead. */
  lemma DoubleSlashRoundTripFails()
    ensures Resolve("/index", "//").None?
    ensures Resolve("/index", Relative(Some("//"), Depth("/index")).value) == Some("/")
  {
    DoubleSlashBecomesRoot();
    assert Split("", '/') == [""];
  }

  /** At the site root, the link to the root itself becomes the empty reference, which a browser
      resolves to the page it is on. */
  lemma RootLinkStaysOnPage()
    ensures Relative(Some("/"), Depth("/Groups")) == Some("")
    ensures Resolve("/Groups", "/") == Some("/")
    ensures Resolve("/Groups", "") == Some("/Groups")
  {
    DepthOfTopPage("Groups");
    assert Split("", '/') == [""];
    assert !HasScheme("") && PathEnd("") == 0;
    assert "/Groups" + "" == "/Groups";
  }

  /** At the site root, a first segment holding ':' loses its leading '/' and turns into a
      scheme. */
  lemma ColonSegmentLeavesSite()
    ensures Relative(Some("/a:b"), Depth("/Groups")) == Some("a:b")
    ensures Resolve("/Groups", "/a:b").Some?
    ensures Resolve("/Groups", "a:b").None?
  {
    DepthOfTopPage("Groups");
    assert "a:b"[1] == ':' && IsAlpha("a:b"[0]);
    assert !IsAlpha("/a:b"[0]);
  }

  /** The rewriting as evidently intended: every URL starting with two slashes is kept, and at
      the site root the URL is marked relative with "./". */
  function RelativeIntended(url: Option<string>, depth: int): (r: Option<string>)
    ensures url.None? <==> r.None?
    ensures url.Some? && (|url.value| == 0 || url.value[0] != '/') ==> r == url
    ensures url.Some? && |url.value| >= 2 && url.value[1] == '/' ==> r == url
  {
    match url
    case None => None
    case Some(u) =>
      if |u| == 0 || u[0] != '/' then url
      else if |u| >= 2 && u[1] == '/' then url
      else if depth == 0 then Some("./" + u[1..])
      else if depth < 0 then url
      else Some(Repeat("../", depth) + u[1..])
  }

  /** With the intended rewriting, every URL it changes comes out relative. */
  lemma IntendedOutputIsRelative(url: string, depth: int)
    requires RelativeIntended(Some(url), depth) != Some(url)
    ensures !StartsWith(RelativeIntended(Some(url), depth).value, "/")
  {
    var r := RelativeIntended(Some(url), depth).value;
    if depth > 0 {
      assert Repeat("../", depth) == "../" + Repeat("../", depth - 1);
    }
    assert r[0] == '.';
  }

  /** The two rewritings differ on the URL "//", and at the site root by the leading "./". */
  lemma IntendedDiffers(url: Option<string>, depth: int)
    ensures Relative(url, depth) != RelativeIntended(url, depth) ==>
      url == Some("//") || (depth == 0 && RelativeIntended(url, depth) == Some("./" + Relative(url, depth).value))
  {
    if url.Some? && |url.value| == 2 && url.value[0] == '/' && url.value[1] == '/' {
      assert url.value == "//";
    }
  }

  /** With the intended rewriting, every site-local URL leads, from the page it was written for,
      where it led before. */
  lemma IntendedRoundTrip(url: string, path: string)
    requires |url| >= 1 && url[0] == '/' && NormalPath(path)
    ensures RelativeIntended(Some(url), Depth(path)).Some?
    ensures Resolve(path, RelativeIntended(Some(url), Depth(path)).value) == Resolve(path, url)
  {
    DirectoriesCount(path);
    if !(|url| >= 2 && url[1] == '/') {
      var u := url[1..];
      assert url == "/" + u;
      assert !StartsWith(u, "/");
      ResolveRooted(path, u);
      if Depth(path) == 0 {
        ResolveHere(path, u);
      } else {
        ResolveUp(path, u);
      }
    }
  }
}
