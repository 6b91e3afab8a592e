/**
 * Fetching the playlist (`download_m3u8`): a GET with browser-like headers,
 * a 403 ladder of at most two further GETs with other headers, and the
 * classification of the final answer. Any exception raised by a request
 * ends the fetch with an error.
 */
module PlaylistFetch {
  import opened Text
  import opened Urls
  import opened Http

  datatype Outcome =
    /** 200: the playlist text is saved; `looksValid` is false when a warning is shown. */
    | Saved(playlist: string, looksValid: bool)
    | Forbidden
    | Expired
    | Rejected(status: int)
    | Failed

  datatype Fetch = Fetch(outcome: Outcome, requests: seq<Request>)

  /** The text names the HLS header tag or a `.ts` segment somewhere. */
  predicate LooksLikePlaylist(text: string) {
    Contains(text, "#EXTM3U") || Contains(text, ".ts")
  }

  /** How the final answer is reported. */
  function Judge(reply: Reply<string>): (o: Outcome)
    ensures o.Saved? <==> IsStatus(reply, 200)
    ensures o.Saved? ==> o.playlist == reply.body && (o.looksValid <==> LooksLikePlaylist(reply.body))
    ensures o.Forbidden? <==> IsStatus(reply, 403)
    ensures o.Expired? <==> IsStatus(reply, 410)
    ensures o.Rejected? ==> IsStatus(reply, o.status)
    ensures o.Failed? <==> reply.Raised?
  {
    match reply
    case Raised => Failed
    case Answer(status, body) =>
      if status == 200 then Saved(body, LooksLikePlaylist(body))
      else if status == 403 then Forbidden
      else if status == 410 then Expired
      else Rejected(status)
  }

  /**
   * `download_m3u8(url, …)`, where `u` is `urlparse(url)`; it returns True
   * exactly when the outcome is `Saved`.
   */
  function FetchPlaylist(url: string, u: Url, script: seq<Reply<string>>): (f: Fetch)
    ensures 1 <= |f.requests| <= 3
    ensures forall i :: 0 <= i < |f.requests| ==> f.requests[i].url == url
    ensures f.requests[0].headers == BrowserHeaders(u)
    ensures |f.requests| == 1 <==> !IsStatus(ReplyAt(script, 0), 403)
    ensures |f.requests| >= 2 ==> f.requests[1].headers == Minimal
    ensures |f.requests| == 3 <==>
              IsStatus(ReplyAt(script, 0), 403) && IsStatus(ReplyAt(script, 1), 403) && DeepPath(u)
    ensures |f.requests| == 3 ==> f.requests[2].headers == Referred(PathReferer(u), Origin(u))
    ensures f.outcome == Judge(ReplyAt(script, |f.requests| - 1))
  {
    var first := Request(url, BrowserHeaders(u));
    var second := Request(url, Minimal);
    if !IsStatus(ReplyAt(script, 0), 403) then
      Fetch(Judge(ReplyAt(script, 0)), [first])
    else if !IsStatus(ReplyAt(script, 1), 403) || !DeepPath(u) then
      Fetch(Judge(ReplyAt(script, 1)), [first, second])
    else
      var third := Request(url, Referred(PathReferer(u), Origin(u)));
      Fetch(Judge(ReplyAt(script, 2)), [first, second, third])
  }
}
