/**
 * Playlist URL normalisation (`normalize_m3u8_url`): turning what the user
 * pasted (a playlist, one media segment, or a directory) into the URL of an
 * HLS playlist. The HEAD probe sent to each guessed playlist is an oracle
 * `accepts`: true when the server answers 200, false for any other status
 * and for a request that raises.
 */
module Locator {
  import opened Wrappers
  import opened Text
  import opened Urls

  /** The path follows the `seg-N` / `segment-N` naming of multi-variant streams. */
  predicate SegmentNamed(path: string) {
    Contains(path, "seg-") || Contains(path, "segment-")
  }

  /** The guessed playlist URLs for a segment URL, in the order they are probed. */
  function Candidates(u: Url): (cs: seq<string>)
    ensures |cs| == if SegmentNamed(u.path) then 4 else 3
  {
    var o := Origin(u);
    var dir := Parent(u.path);
    var own := [WithQuery(o + dir + "/index.m3u8", u.query),
                WithQuery(o + dir + "/playlist.m3u8", u.query),
                WithQuery(o + dir + "/master.m3u8", u.query)];
    if SegmentNamed(u.path) then [WithQuery(o + Parent(dir) + "/index.m3u8", u.query)] + own else own
  }

  /** The index of the first candidate the probe accepts. */
  function FirstAccepted(cands: seq<string>, accepts: string -> bool): (r: Option<nat>)
    ensures r.Some? ==> r.value < |cands| && accepts(cands[r.value])
    ensures r.Some? ==> forall j :: 0 <= j < r.value ==> !accepts(cands[j])
    ensures r.None? <==> forall j :: 0 <= j < |cands| ==> !accepts(cands[j])
  {
    if |cands| == 0 then None
    else if accepts(cands[0]) then Some(0)
    else match FirstAccepted(cands[1..], accepts)
      case None => None
      case Some(k) => Some(k + 1)
  }

  /** The deterministic guess returned when no candidate is accepted. */
  function Fallback(u: Url): (r: string)
    ensures StartsWith(r, Origin(u))
    ensures u.query == "" ==> EndsWith(r, "/index.m3u8")
  {
    var dir := Parent(u.path);
    var base := if SegmentNamed(u.path) then Parent(dir) else dir;
    WithQuery(Origin(u) + base + "/index.m3u8", u.query)
  }

  /** The playlist guessed for a segment URL: the first accepted candidate, else the fallback. */
  function FromSegment(u: Url, accepts: string -> bool): (r: string)
    ensures r in Candidates(u)
    ensures accepts(r) || forall c :: c in Candidates(u) ==> !accepts(c)
  {
    var cands := Candidates(u);
    FallbackIsFirstCandidate(u);
    match FirstAccepted(cands, accepts)
    case Some(k) => cands[k]
    case None => Fallback(u)
  }

  /** `index.m3u8` under a URL that names neither a playlist nor a segment, as written. */
  function DirectoryPlaylistAsWritten(url: string, u: Url): string
  {
    var base := RStrip(url, '/');
    if u.query != "" then base + "/index.m3u8?" + u.query else base + "/index.m3u8"
  }

  /** `index.m3u8` under a directory URL, with the query moved after the new file name. */
  function DirectoryPlaylist(url: string, u: Url): string
  {
    if u.query != "" then Origin(u) + RStrip(u.path, '/') + "/index.m3u8?" + u.query
    else RStrip(url, '/') + "/index.m3u8"
  }

  /** What an http(s) URL with parsed form `u` normalises to. */
  function Locate(url: string, u: Url, accepts: string -> bool): string
  {
    if Contains(u.path, ".m3u8") then url
    else if Contains(u.path, ".ts") then FromSegment(u, accepts)
    else DirectoryPlaylist(url, u)
  }

  /** `normalize_m3u8_url(url)`, with the query placement of the directory case corrected. */
  function Normalize(url: string, accepts: string -> bool): (r: Option<string>)
    ensures r.None? <==> !IsHttpUrl(url)
    ensures IsHttpUrl(url) && Contains(ParseUrl(url).path, ".m3u8") ==> r == Some(url)
    ensures (IsHttpUrl(url) && !Contains(ParseUrl(url).path, ".m3u8") && !Contains(ParseUrl(url).path, ".ts")
             && ParseUrl(url).query == "") ==> r == Some(RStrip(url, '/') + "/index.m3u8")
  {
    if url == "" || !IsHttpUrl(url) then None
    else Some(Locate(url, ParseUrl(url), accepts))
  }

  /** `normalize_m3u8_url(url)` exactly as written. */
  function NormalizeAsWritten(url: string, accepts: string -> bool): (r: Option<string>)
    ensures r.None? <==> !IsHttpUrl(url)
    ensures var u := ParseUrl(url);
            !IsHttpUrl(url) || u.query == "" || Contains(u.path, ".m3u8") || Contains(u.path, ".ts")
            ==> r == Normalize(url, accepts)
  {
    if IsHttpUrl(url) && !Contains(ParseUrl(url).path, ".m3u8") && !Contains(ParseUrl(url).path, ".ts")
    then Some(DirectoryPlaylistAsWritten(url, ParseUrl(url)))
    else Normalize(url, accepts)
  }

  /**
   * For a segment URL the result is the first accepted candidate, probed in
   * order, or the fallback when the probe accepts none.
   */
  lemma SegmentUrlProbing(url: string, accepts: string -> bool)
    requires IsHttpUrl(url)
    requires !Contains(ParseUrl(url).path, ".m3u8") && Contains(ParseUrl(url).path, ".ts")
    ensures var cs := Candidates(ParseUrl(url));
            || (exists k :: 0 <= k < |cs| && Normalize(url, accepts) == Some(cs[k]) && accepts(cs[k])
                  && forall j :: 0 <= j < k ==> !accepts(cs[j]))
            || ((forall j :: 0 <= j < |cs| ==> !accepts(cs[j])) && Normalize(url, accepts) == Some(Fallback(ParseUrl(url))))
  {
    NormalizeIsLocate(url, accepts);
    FromSegmentProbing(ParseUrl(url), accepts);
  }

  lemma FromSegmentProbing(u: Url, accepts: string -> bool)
    ensures var cs := Candidates(u);
            || (exists k :: 0 <= k < |cs| && FromSegment(u, accepts) == cs[k] && accepts(cs[k])
                  && forall j :: 0 <= j < k ==> !accepts(cs[j]))
            || ((forall j :: 0 <= j < |cs| ==> !accepts(cs[j])) && FromSegment(u, accepts) == Fallback(u))
  {
    var cs := Candidates(u);
    match FirstAccepted(cs, accepts)
    case Some(k) =>
      assert FromSegment(u, accepts) == cs[k];
    case None =>
  }

  /** The fallback guess is the first candidate, so a failed probe returns the first guess. */
  lemma FallbackIsFirstCandidate(u: Url)
    ensures Fallback(u) == Candidates(u)[0]
  {
  }

  lemma EndsWithQuery(s: string, query: string)
    requires query != ""
    ensures EndsWith(s + "?" + query, "?" + query)
  {
    assert (s + "?" + query)[|s|..] == "?" + query;
  }

  lemma NormalizeIsLocate(url: string, accepts: string -> bool)
    requires IsHttpUrl(url)
    ensures Normalize(url, accepts) == Some(Locate(url, ParseUrl(url), accepts))
  {
  }

  lemma SegmentGuessKeepsQuery(u: Url, accepts: string -> bool)
    requires u.query != ""
    ensures EndsWith(FromSegment(u, accepts), "?" + u.query)
  {
    var cs := Candidates(u);
    assert forall k :: 0 <= k < |cs| ==> EndsWith(cs[k], "?" + u.query);
    assert FromSegment(u, accepts) in cs + [Fallback(u)];
  }

  lemma DirectoryGuessKeepsQuery(url: string, u: Url)
    requires u.query != ""
    ensures DirectoryPlaylist(url, u) == Origin(u) + RStrip(u.path, '/') + "/index.m3u8" + "?" + u.query
    ensures EndsWith(DirectoryPlaylist(url, u), "?" + u.query)
  {
    EndsWithQuery(Origin(u) + RStrip(u.path, '/') + "/index.m3u8", u.query);
  }

  /** Whenever the input carries a query, every URL built from it ends with `?query`. */
  lemma QueryPropagated(url: string, accepts: string -> bool)
    requires IsHttpUrl(url)
    requires !Contains(ParseUrl(url).path, ".m3u8") && ParseUrl(url).query != ""
    ensures EndsWith(Normalize(url, accepts).value, "?" + ParseUrl(url).query)
  {
    var u := ParseUrl(url);
    NormalizeIsLocate(url, accepts);
    if Contains(u.path, ".ts") {
      SegmentGuessKeepsQuery(u, accepts);
    } else {
      DirectoryGuessKeepsQuery(url, u);
    }
  }

  lemma {:induction false} LastPieceAfterSlash(p: string, x: string)
    requires '/' !in x
    ensures LastPieceStart(p + "/" + x) == |p| + 1
    decreases |x|
  {
    if |x| > 0 {
      LastPieceAfterSlash(p, x[..|x| - 1]);
      assert (p + "/" + x)[..|p + "/" + x| - 1] == p + "/" + x[..|x| - 1];
    }
  }

  lemma IndexPathShape(dir: string, path: string)
    requires StartsWith(path, dir) && '?' !in path && '#' !in path
    requires path == "" || path[0] == '/'
    ensures var p := dir + "/index.m3u8";
            && |p| > 0 && p[0] == '/' && '?' !in p && '#' !in p && ';' !in p[LastPieceStart(p)..]
  {
    var p := dir + "/index.m3u8";
    IndexSuffix(dir);
    LastPieceAfterSlash(dir, "index.m3u8");
    assert p[LastPieceStart(p)..] == "index.m3u8";
    PrefixChars(path, dir);
    if |dir| > 0 {
      assert dir[0] == path[..|dir|][0];
    }
  }

  lemma IndexSuffix(dir: string)
    ensures dir + "/index.m3u8" == dir + "/" + "index.m3u8"
    ensures '?' !in "/index.m3u8" && '#' !in "/index.m3u8" && ';' !in "index.m3u8"
  {
  }

  /** A prefix holds only characters of the whole. */
  lemma PrefixChars(s: string, pre: string)
    requires StartsWith(s, pre)
    ensures forall c :: c in pre ==> c in s
  {
    forall c | c in pre
      ensures c in s
    {
      var k :| 0 <= k < |pre| && pre[k] == c;
      assert s[k] == s[..|pre|][k];
    }
  }

  lemma QueryAppended(o: string, p: string, q: string)
    requires q != ""
    ensures o + p + "?" + q == o + WithQuery(p, q)
  {
  }

  /** A directory URL with a query locates to the origin, the new path and the query. */
  lemma DirectoryLocation(url: string, u: Url, accepts: string -> bool)
    requires !Contains(u.path, ".m3u8") && !Contains(u.path, ".ts")
    requires u.query != ""
    ensures Locate(url, u, accepts) == u.scheme + "://" + u.netloc + WithQuery(RStrip(u.path, '/') + "/index.m3u8", u.query)
  {
    var path := RStrip(u.path, '/') + "/index.m3u8";
    assert Locate(url, u, accepts) == Origin(u) + RStrip(u.path, '/') + "/index.m3u8?" + u.query;
    assert Origin(u) + RStrip(u.path, '/') + "/index.m3u8?" + u.query == Origin(u) + path + "?" + u.query;
    QueryAppended(Origin(u), path, u.query);
  }

  /** The URL assembled for a directory parses back into its parts. */
  lemma IndexUrlParses(u: Url)
    requires u.scheme == "http" || u.scheme == "https"
    requires '/' !in u.netloc && '?' !in u.netloc && '#' !in u.netloc
    requires '?' !in u.path && '#' !in u.path && '#' !in u.query
    requires u.path == "" || u.path[0] == '/'
    ensures ParseUrl(u.scheme + "://" + u.netloc + WithQuery(RStrip(u.path, '/') + "/index.m3u8", u.query))
            == u.(path := RStrip(u.path, '/') + "/index.m3u8", params := "", fragment := "")
  {
    var path := RStrip(u.path, '/') + "/index.m3u8";
    IndexPathShape(RStrip(u.path, '/'), u.path);
    assert forall k :: 0 <= k < |u.netloc| ==> !EndsNetloc(u.netloc[k]) by {
      assert forall k :: 0 <= k < |u.netloc| ==> u.netloc[k] in u.netloc;
    }
    ParseAssembled(u.scheme, u.netloc, path, u.query);
  }

  /**
   * With the correction, a directory URL that carries a query becomes a URL
   * whose path names `index.m3u8` and whose query is the original query.
   */
  lemma DirectoryPlaylistKeepsQuery(url: string, accepts: string -> bool)
    requires IsHttpUrl(url)
    requires !Contains(ParseUrl(url).path, ".m3u8") && !Contains(ParseUrl(url).path, ".ts")
    requires ParseUrl(url).query != ""
    ensures ParseUrl(Normalize(url, accepts).value)
            == ParseUrl(url).(path := RStrip(ParseUrl(url).path, '/') + "/index.m3u8", params := "", fragment := "")
  {
    var u := ParseUrl(url);
    OriginPathPrefix(url);
    HttpPathShape(url);
    NormalizeIsLocate(url, accepts);
    DirectoryLocation(url, u, accepts);
    IndexUrlParses(u);
  }

  lemma HttpAssembled(scheme: string, tail: string)
    requires scheme == "http" || scheme == "https"
    ensures IsHttpUrl(scheme + "://" + tail)
  {
    assert (scheme + "://" + tail)[..|scheme| + 3] == scheme + "://";
  }

  lemma LastOfQuery(s: string, query: string)
    requires query != ""
    ensures (s + "?" + query)[|s + "?" + query| - 1] == query[|query| - 1]
  {
  }

  lemma NoHashAdded(query: string)
    requires '#' !in query
    ensures '#' !in query + "/index.m3u8?" + query
  {
  }

  lemma NameAfterQuery(prefix: string, query: string)
    ensures prefix + "?" + query + "/index.m3u8?" + query == prefix + "?" + (query + "/index.m3u8?" + query)
  {
  }

  /** An http(s) URL assembled from its parts, with a non-empty query, parses back into them. */
  lemma QueryUrlParses(scheme: string, netloc: string, path: string, query: string)
    requires scheme == "http" || scheme == "https"
    requires forall k :: 0 <= k < |netloc| ==> !EndsNetloc(netloc[k])
    requires |path| > 0 && path[0] == '/'
    requires '?' !in path && '#' !in path && ';' !in path[LastPieceStart(path)..]
    requires query != "" && '#' !in query
    ensures var url := scheme + "://" + netloc + path + "?" + query;
            IsHttpUrl(url) && ParseUrl(url) == Url(scheme, netloc, path, "", query, "")
            && url[|url| - 1] == query[|query| - 1]
  {
    QueryAppended(scheme + "://" + netloc, path, query);
    HttpAssembled(scheme, netloc + path + "?" + query);
    LastOfQuery(scheme + "://" + netloc + path, query);
    ParseAssembled(scheme, netloc, path, query);
  }

  /** As written, a directory URL with a query not ending in '/' gains `/index.m3u8?query` at its end. */
  lemma DirectoryAsWrittenAppends(url: string, u: Url, accepts: string -> bool)
    requires IsHttpUrl(url) && u == ParseUrl(url)
    requires !Contains(u.path, ".m3u8") && !Contains(u.path, ".ts") && u.query != ""
    requires url[|url| - 1] != '/'
    ensures NormalizeAsWritten(url, accepts) == Some(url + "/index.m3u8?" + u.query)
  {
  }

  /**
   * As written, the directory case appends `/index.m3u8?query` after the
   * query already present: the path of the result is the directory itself
   * and the playlist name ends up inside the query.
   */
  lemma DirectoryQueryMisplaced(scheme: string, netloc: string, path: string, query: string, accepts: string -> bool)
    requires scheme == "http" || scheme == "https"
    requires forall k :: 0 <= k < |netloc| ==> !EndsNetloc(netloc[k])
    requires |path| > 0 && path[0] == '/'
    requires '?' !in path && '#' !in path && ';' !in path[LastPieceStart(path)..]
    requires !Contains(path, ".m3u8") && !Contains(path, ".ts")
    requires query != "" && '#' !in query && query[|query| - 1] != '/'
    ensures var url := scheme + "://" + netloc + path + "?" + query;
            ParseUrl(NormalizeAsWritten(url, accepts).value)
            == Url(scheme, netloc, path, "", query + "/index.m3u8?" + query, "")
  {
    var url := scheme + "://" + netloc + path + "?" + query;
    QueryUrlParses(scheme, netloc, path, query);
    DirectoryAsWrittenAppends(url, ParseUrl(url), accepts);
    var q2 := query + "/index.m3u8?" + query;
    NoHashAdded(query);
    QueryAppended(scheme + "://" + netloc, path, q2);
    NameAfterQuery(scheme + "://" + netloc + path, query);
    ParseAssembled(scheme, netloc, path, q2);
  }
}
