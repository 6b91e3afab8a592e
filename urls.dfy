/**
 * The part of Python's `urllib.parse.urlparse` the downloader relies on, for
 * the `http://` and `https://` URLs it accepts: the scheme, the network
 * location up to the first '/', '?' or '#', the fragment after the first '#',
 * the query after the first '?' before it, and the `;params` of the path's
 * last piece.
 */
module Urls {
  import opened Text

  datatype Url = Url(scheme: string, netloc: string, path: string, params: string, query: string, fragment: string)

  predicate IsHttpUrl(url: string) {
    StartsWith(url, "http://") || StartsWith(url, "https://")
  }

  predicate EndsNetloc(c: char) { c == '/' || c == '?' || c == '#' }

  /** The index of the first '/', '?' or '#' of `s`, or `|s|`. */
  function NetlocEnd(s: string): (i: nat)
    ensures i <= |s|
    ensures forall k :: 0 <= k < i ==> !EndsNetloc(s[k])
    ensures i < |s| ==> EndsNetloc(s[i])
  {
    if |s| == 0 || EndsNetloc(s[0]) then 0 else 1 + NetlocEnd(s[1..])
  }

  /** The index just after the last '/' of `p`, or 0 when there is none. */
  function LastPieceStart(p: string): (i: nat)
    ensures i <= |p|
    ensures '/' !in p[i..]
    ensures i > 0 ==> p[i - 1] == '/'
  {
    if |p| == 0 then 0
    else if p[|p| - 1] == '/' then |p|
    else
      var i := LastPieceStart(p[..|p| - 1]);
      assert p[i..] == p[..|p| - 1][i..] + [p[|p| - 1]];
      i
  }

  /** `urllib.parse._splitparams`: `;params` is taken from the last piece of the path only. */
  function SplitParams(p: string): (r: (string, string))
    ensures StartsWith(p, r.0)
    ensures forall x :: x in r.0 ==> x in p
    ensures ';' !in p[LastPieceStart(p)..] ==> r == (p, "")
  {
    var s := LastPieceStart(p);
    var i := IndexOf(p[s..], ';');
    if i == |p[s..]| then (p, "") else (p[..s + i], p[s + i + 1..])
  }

  function SchemeOf(url: string): (scheme: string)
    ensures scheme != "" ==> StartsWith(url, scheme + "://")
    ensures scheme == "" <==> !IsHttpUrl(url)
  {
    if StartsWith(url, "https://") then "https" else if StartsWith(url, "http://") then "http" else ""
  }

  /** What follows `scheme://`; the whole string when there is no http(s) scheme. */
  function AfterScheme(url: string): (rest: string)
    ensures url == (if SchemeOf(url) == "" then "" else SchemeOf(url) + "://") + rest
  {
    var scheme := SchemeOf(url);
    if scheme == "" then url
    else
      assert url[..|scheme| + 3] == scheme + "://";
      url[|scheme| + 3..]
  }

  /** `s.split(c, 1)`, the second part "" when there is no `c`. */
  function SplitOnce(s: string, c: char): (r: (string, string))
    ensures c !in r.0
    ensures StartsWith(s, r.0)
    ensures forall x :: x in r.0 ==> x in s
    ensures forall x :: x in r.1 ==> x in s
    ensures c in s ==> s == r.0 + [c] + r.1
    ensures c !in s ==> r == (s, "")
  {
    var i := IndexOf(s, c);
    if i == |s| then (s, "") else (s[..i], s[i + 1..])
  }

  /** The network location and what follows it. */
  function SplitNetloc(url: string): (r: (string, string))
    ensures AfterScheme(url) == r.0 + r.1
    ensures forall k :: 0 <= k < |r.0| ==> !EndsNetloc(r.0[k])
    ensures '/' !in r.0 && '?' !in r.0 && '#' !in r.0
    ensures SchemeOf(url) != "" && |r.1| > 0 ==> EndsNetloc(r.1[0])
  {
    var rest := AfterScheme(url);
    var n := if SchemeOf(url) == "" then 0 else NetlocEnd(rest);
    NetlocPrefix(rest, n);
    (rest[..n], rest[n..])
  }

  /** A prefix free of '/', '?' and '#', and the rest after it. */
  lemma NetlocPrefix(rest: string, n: nat)
    requires n <= |rest|
    requires forall k :: 0 <= k < n ==> !EndsNetloc(rest[k])
    ensures rest == rest[..n] + rest[n..]
    ensures forall k :: 0 <= k < n ==> !EndsNetloc(rest[..n][k])
    ensures '/' !in rest[..n] && '?' !in rest[..n] && '#' !in rest[..n]
  {
    assert forall k :: 0 <= k < n ==> rest[..n][k] == rest[k];
  }

  /** `urlparse(url)` */
  function ParseUrl(url: string): (u: Url)
    ensures '/' !in u.netloc && '?' !in u.netloc && '#' !in u.netloc
    ensures '?' !in u.path && '#' !in u.path
    ensures '#' !in u.query
  {
    var location := SplitNetloc(url);
    var fragment := SplitOnce(location.1, '#');
    var query := SplitOnce(fragment.0, '?');
    var params := SplitParams(query.0);
    Url(SchemeOf(url), location.0, params.0, params.1, query.1, fragment.1)
  }

  /** `f"{scheme}://{netloc}"` */
  function Origin(u: Url): string {
    u.scheme + "://" + u.netloc
  }

  /** `f"{s}?{query}"` when the query is non-empty, `s` otherwise. */
  function WithQuery(s: string, query: string): (r: string)
    ensures query != "" ==> EndsWith(r, "?" + query) && StartsWith(r, s)
    ensures query == "" ==> r == s
  {
    if query == "" then s else s + "?" + query
  }

  lemma PrefixTrans(a: string, b: string, c: string)
    requires StartsWith(a, b) && StartsWith(b, c)
    ensures StartsWith(a, c)
  {
    assert a[..|c|] == a[..|b|][..|c|];
  }

  lemma PrefixExtend(a: string, b: string, c: string)
    requires StartsWith(b, c)
    ensures StartsWith(a + b, a + c)
  {
    assert (a + b)[..|a + c|] == a + b[..|c|];
  }

  lemma OriginThenRest(url: string)
    requires IsHttpUrl(url)
    ensures url == Origin(ParseUrl(url)) + SplitNetloc(url).1
    ensures ParseUrl(url).scheme == "http" || ParseUrl(url).scheme == "https"
  {
    var scheme := SchemeOf(url);
    var sn := SplitNetloc(url);
    assert ParseUrl(url).scheme == scheme && ParseUrl(url).netloc == sn.0;
    assert url == scheme + "://" + (sn.0 + sn.1);
    AppendAssoc(scheme + "://", sn.0, sn.1);
  }

  lemma RestStartsWithPath(url: string)
    ensures StartsWith(SplitNetloc(url).1, ParseUrl(url).path)
  {
    var sn := SplitNetloc(url);
    var sf := SplitOnce(sn.1, '#');
    var sq := SplitOnce(sf.0, '?');
    var sp := SplitParams(sq.0);
    PrefixTrans(sn.1, sf.0, sq.0);
    PrefixTrans(sn.1, sq.0, sp.0);
  }

  /** An http(s) URL begins with its origin followed by its path. */
  lemma OriginPathPrefix(url: string)
    requires IsHttpUrl(url)
    ensures StartsWith(url, Origin(ParseUrl(url)) + ParseUrl(url).path)
    ensures ParseUrl(url).scheme == "http" || ParseUrl(url).scheme == "https"
  {
    OriginThenRest(url);
    RestStartsWithPath(url);
    PrefixExtend(Origin(ParseUrl(url)), SplitNetloc(url).1, ParseUrl(url).path);
  }

  /** The path of an http(s) URL is empty or starts with a slash. */
  lemma HttpPathShape(url: string)
    requires IsHttpUrl(url)
    ensures ParseUrl(url).path == "" || ParseUrl(url).path[0] == '/'
  {
    RestStartsWithPath(url);
    var rest := SplitNetloc(url).1;
    var path := ParseUrl(url).path;
    if path != "" {
      assert path[0] == rest[0];
      assert path[0] in path;
    }
  }

  lemma SchemeOfAssembled(scheme: string, tail: string)
    requires scheme == "http" || scheme == "https"
    ensures SchemeOf(scheme + "://" + tail) == scheme
    ensures AfterScheme(scheme + "://" + tail) == tail
  {
    var url := scheme + "://" + tail;
    assert url[..|scheme| + 3] == scheme + "://";
    if scheme == "http" {
      assert url[4] == ':';
    }
  }

  lemma NetlocOfAssembled(scheme: string, netloc: string, tail: string)
    requires scheme == "http" || scheme == "https"
    requires forall k :: 0 <= k < |netloc| ==> !EndsNetloc(netloc[k])
    requires |tail| > 0 && tail[0] == '/'
    ensures SplitNetloc(scheme + "://" + netloc + tail) == (netloc, tail)
    ensures SchemeOf(scheme + "://" + netloc + tail) == scheme
  {
    var url := scheme + "://" + netloc + tail;
    assert url == scheme + "://" + (netloc + tail);
    SchemeOfAssembled(scheme, netloc + tail);
    var rest := netloc + tail;
    assert rest[|netloc|] == '/';
    assert forall k :: 0 <= k < |netloc| ==> rest[k] == netloc[k];
    var n := NetlocEnd(rest);
    assert n == |netloc|;
    assert rest[..n] == netloc && rest[n..] == tail;
  }

  lemma QueryOfAssembled(path: string, query: string)
    requires '?' !in path && '#' !in path && '#' !in query
    ensures SplitOnce(WithQuery(path, query), '#') == (WithQuery(path, query), "")
    ensures SplitOnce(WithQuery(path, query), '?') == (path, query)
  {
    var tail := WithQuery(path, query);
    assert '#' !in tail;
    if query != "" {
      assert tail == path + ['?'] + query;
      var i := IndexOf(tail, '?');
      assert i == |path| by {
        assert tail[|path|] == '?';
        assert tail[..|path|] == path;
      }
      assert tail[..i] == path && tail[i + 1..] == query;
    }
  }

  /**
   * Parsing a URL assembled from an origin, a path whose last piece has no
   * ';', and a query gives back that origin, that path and that query.
   */
  lemma ParseAssembled(scheme: string, netloc: string, path: string, query: string)
    requires scheme == "http" || scheme == "https"
    requires forall k :: 0 <= k < |netloc| ==> !EndsNetloc(netloc[k])
    requires |path| > 0 && path[0] == '/'
    requires '?' !in path && '#' !in path && ';' !in path[LastPieceStart(path)..]
    requires '#' !in query
    ensures ParseUrl(scheme + "://" + netloc + WithQuery(path, query))
            == Url(scheme, netloc, path, "", query, "")
  {
    var tail := WithQuery(path, query);
    NetlocOfAssembled(scheme, netloc, tail);
    QueryOfAssembled(path, query);
    assert SplitParams(path) == (path, "");
  }
}
