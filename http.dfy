/**
 * What the downloader sends and what it gets back. The `requests` session is
 * not modelled: each GET is answered from a script of replies, the k-th
 * request getting the k-th reply, and a request past the end of the script
 * raises. Header sets are named by the role they play in the source's
 * fallback ladders.
 */
module Http {
  import opened Text
  import opened Urls

  newtype byte = x: int | 0 <= x < 256

  /** A server answer (status code and body), or an exception raised by the request. */
  datatype Reply<B> = Answer(status: int, body: B) | Raised

  predicate IsStatus<B>(r: Reply<B>, code: int) {
    r.Answer? && r.status == code
  }

  /** The reply to the `k`-th request of a run. */
  function ReplyAt<B>(script: seq<Reply<B>>, k: nat): Reply<B> {
    if k < |script| then script[k] else Raised
  }

  datatype Headers =
    /** The full browser-like set, with `Referer: origin/` and `Origin: origin`. */
    | Browser(referer: string, origin: string)
    /** Only `User-Agent` and `Accept`. */
    | Minimal
    /** `User-Agent`, `Accept` and an explicit `Referer` and `Origin`. */
    | Referred(referer: string, origin: string)
    /** The browser-like set plus `Range: bytes=offset-`. */
    | Ranged(referer: string, origin: string, offset: nat)

  datatype Request = Request(url: string, headers: Headers)

  function BrowserHeaders(u: Url): Headers {
    Browser(Origin(u) + "/", Origin(u))
  }

  /** The path splits into more than two '/'-separated pieces. */
  predicate DeepPath(u: Url) {
    |Split(u.path, '/')| > 2
  }

  /** `scheme://netloc` followed by the directory of the path and a slash. */
  function PathReferer(u: Url): (r: string)
    requires DeepPath(u)
    ensures EndsWith(r, "/")
    ensures StartsWith(r, Origin(u))
  {
    var r := Origin(u) + Parent(u.path) + "/";
    assert r[..|Origin(u)|] == Origin(u);
    r
  }

  lemma SlashInDeepPath(u: Url)
    requires DeepPath(u)
    ensures '/' in u.path
  {
  }

  lemma RefererThenName(u: Url)
    requires DeepPath(u)
    ensures Origin(u) + u.path == PathReferer(u) + Last(Split(u.path, '/'))
    ensures '/' !in Last(Split(u.path, '/'))
  {
    SlashInDeepPath(u);
    ParentAndLast(u.path);
  }

  lemma DirectoryPrefix(url: string, u: Url)
    requires StartsWith(url, Origin(u) + u.path) && DeepPath(u)
    ensures StartsWith(url, PathReferer(u))
  {
    var r := PathReferer(u);
    var full := Origin(u) + u.path;
    RefererThenName(u);
    assert full[..|r|] == r;
    PrefixTrans(url, full, r);
  }

  /**
   * The path referer of an http(s) URL is a prefix of that URL: the URL of
   * the directory that holds the requested file, so that the URL's origin
   * and path are the referer followed by a file name without '/'.
   */
  lemma PathRefererIsDirectory(url: string)
    requires IsHttpUrl(url) && DeepPath(ParseUrl(url))
    ensures StartsWith(url, PathReferer(ParseUrl(url)))
    ensures var u := ParseUrl(url);
            Origin(u) + u.path == PathReferer(u) + Last(Split(u.path, '/')) && '/' !in Last(Split(u.path, '/'))
  {
    OriginPathPrefix(url);
    DirectoryPrefix(url, ParseUrl(url));
    RefererThenName(ParseUrl(url));
  }
}
