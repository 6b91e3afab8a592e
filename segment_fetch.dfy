/**
 * Downloading one media segment (`download_single_ts`). The segment file is
 * `None` when absent and `Some(bytes)` otherwise. A non-empty file is first
 * resumed with ranged requests (`Range: bytes=N-`, section 14.1.2 of
 * RFC 9110): a 206 answer is appended to it, any other answer deletes it.
 * Without a usable file the segment is fetched whole, each attempt walking a
 * 403 ladder of header sets; a 200 answer overwrites the file. Each loop
 * makes at most `maxRetries` attempts.
 */
module SegmentFetch {
  import opened Wrappers
  import opened Text
  import opened Urls
  import opened Http

  function Size(file: Option<seq<byte>>): nat {
    if file.Some? then |file.value| else 0
  }

  /** The header set of the last step of the ladder: the path referer, or the origin root. */
  function LadderReferer(u: Url): (r: string)
    ensures StartsWith(r, Origin(u)) && EndsWith(r, "/")
    ensures DeepPath(u) ==> r == PathReferer(u)
    ensures !DeepPath(u) ==> r == Origin(u) + "/"
  {
    if DeepPath(u) then PathReferer(u)
    else
      var r := Origin(u) + "/";
      assert r[..|Origin(u)|] == Origin(u);
      r
  }

  /**
   * Streams `body` onto the end of `prefix` in chunks of at most `chunkSize`
   * bytes, as `response.iter_content(chunk_size)` feeding `f.write` does.
   */
  method WriteChunks(prefix: seq<byte>, body: seq<byte>, chunkSize: nat) returns (written: seq<byte>)
    requires chunkSize > 0
    ensures written == prefix + body
  {
    written := prefix;
    var pos := 0;
    while pos < |body|
      invariant pos <= |body|
      invariant written == prefix + body[..pos]
      decreases |body| - pos
    {
      var end := if pos + chunkSize < |body| then pos + chunkSize else |body|;
      var chunk := body[pos..end];
      written := written + chunk;
      assert body[..end] == body[..pos] + chunk;
      pos := end;
    }
    assert body[..pos] == body;
  }

  /** The ranged requests come first, all at offset `offset`. */
  predicate RangedFirst(requests: seq<Request>, offset: nat) {
    && (forall i :: 0 <= i < |requests| && requests[i].headers.Ranged? ==> requests[i].headers.offset == offset)
    && (forall i, j :: 0 <= i < j < |requests| && requests[j].headers.Ranged? ==> requests[i].headers.Ranged?)
  }

  /**
   * Every fallback header set (minimal or with an explicit referer) is sent
   * only right after a request answered 403.
   */
  predicate LadderAfter403<B>(requests: seq<Request>, script: seq<Reply<B>>) {
    forall i :: 0 <= i < |requests| && (requests[i].headers.Minimal? || requests[i].headers.Referred?) ==>
      i > 0 && IsStatus(ReplyAt(script, i - 1), 403)
  }

  /** The header set of the last rung of the ladder. */
  function RefererHeaders(u: Url): Headers {
    Referred(LadderReferer(u), Origin(u))
  }

  /**
   * The ladder is climbed from request `from` on: a browser-like GET answered
   * 403 is followed by a fallback GET, a minimal GET answered 403 by the GET
   * with an explicit referer, and that referer is always `LadderReferer(u)`.
   */
  predicate LadderClimbed<B>(requests: seq<Request>, script: seq<Reply<B>>, u: Url, from: nat) {
    forall i :: from <= i < |requests| ==> LadderStep(requests, script, u, i)
  }

  /**
   * From request `from` on, a browser-header GET answered 403 is followed by
   * the minimal GET exactly when it opens one of the first `n - 1` attempts;
   * the one opening attempt `n` goes straight to the Referer GET.
   */
  predicate MinimalUnlessLast<B>(requests: seq<Request>, script: seq<Reply<B>>, from: nat, n: nat) {
    forall i :: from <= i < |requests| - 1 && requests[i].headers.Browser? && IsStatus(ReplyAt(script, i), 403) ==>
      (requests[i + 1].headers.Minimal? <==> Attempts(requests[from..i + 1]) < n)
  }

  /** The ladder at request `i`, which must exist. */
  predicate LadderStep<B>(requests: seq<Request>, script: seq<Reply<B>>, u: Url, i: nat)
    requires i < |requests|
  {
    && (requests[i].headers.Referred? ==> requests[i].headers == RefererHeaders(u))
    && (requests[i].headers.Browser? && IsStatus(ReplyAt(script, i), 403) ==>
          i + 1 < |requests| && (requests[i + 1].headers.Minimal? || requests[i + 1].headers.Referred?))
    && (requests[i].headers.Minimal? && IsStatus(ReplyAt(script, i), 403) ==>
          i + 1 < |requests| && requests[i + 1].headers.Referred?)
  }

  /** A successful run: the last request was answered 206 (resume) or 200 (whole), and the file shows it. */
  predicate Succeeded(file: Option<seq<byte>>, saved: Option<seq<byte>>, requests: seq<Request>, script: seq<Reply<seq<byte>>>) {
    && |requests| > 0
    && var last := ReplyAt(script, |requests| - 1);
    && last.Answer?
    && if requests[|requests| - 1].headers.Ranged?
       then last.status == 206 && file.Some? && saved == Some(file.value + last.body)
       else last.status == 200 && saved == Some(last.body)
  }

  /** How the resume loop ends. */
  datatype ResumeEnd =
    /** 206: the answer was appended; the run returns True. */
    | Appended(contents: seq<byte>)
    /** Another status: the file is deleted and fetched whole. */
    | Refused
    /** Every attempt raised; the run returns False. */
    | GaveUp

  /** The ranged request of every resume attempt, at the current size of the file. */
  function RangedRequest(url: string, u: Url, offset: nat): Request {
    Request(url, Ranged(Origin(u) + "/", Origin(u), offset))
  }

  /** The resume loop over a non-empty file: lines 253-280. */
  method Resume(url: string, u: Url, file: seq<byte>, maxRetries: nat, chunkSize: nat, script: seq<Reply<seq<byte>>>)
    returns (end: ResumeEnd, requests: seq<Request>)
    requires |file| > 0 && chunkSize > 0
    ensures |requests| <= maxRetries
    ensures forall i :: 0 <= i < |requests| ==> requests[i] == RangedRequest(url, u, |file|)
    ensures forall i :: 0 <= i < |requests| - 1 ==> ReplyAt(script, i).Raised?
    ensures end.Appended? ==>
              |requests| > 0 && IsStatus(ReplyAt(script, |requests| - 1), 206)
              && end.contents == file + ReplyAt(script, |requests| - 1).body
    ensures end.Refused? ==>
              |requests| > 0 && ReplyAt(script, |requests| - 1).Answer? && ReplyAt(script, |requests| - 1).status != 206
    ensures end.GaveUp? <==> |requests| == maxRetries && forall i :: 0 <= i < maxRetries ==> ReplyAt(script, i).Raised?
  {
    var request := RangedRequest(url, u, |file|);
    requests := [];
    while |requests| < maxRetries
      invariant |requests| <= maxRetries
      invariant forall i :: 0 <= i < |requests| ==> requests[i] == request
      invariant forall i :: 0 <= i < |requests| ==> ReplyAt(script, i).Raised?
      decreases maxRetries - |requests|
    {
      var reply := ReplyAt(script, |requests|);
      requests := requests + [request];
      if reply.Answer? {
        if reply.status == 206 {
          var contents := WriteChunks(file, reply.body, chunkSize);
          return Appended(contents), requests;
        }
        return Refused, requests;
      }
    }
    end := GaveUp;
  }

  /** The number of attempts among `requests`: each attempt opens with the browser-like header set. */
  function Attempts(requests: seq<Request>): nat {
    if |requests| == 0 then 0
    else Attempts(requests[..|requests| - 1]) + (if requests[|requests| - 1].headers.Browser? then 1 else 0)
  }

  lemma {:induction false} AttemptsAppend(a: seq<Request>, b: seq<Request>)
    ensures Attempts(a + b) == Attempts(a) + Attempts(b)
    decreases |b|
  {
    if |b| > 0 {
      var b' := b[..|b| - 1];
      assert (a + b)[..|a + b| - 1] == a + b';
      assert (a + b)[|a + b| - 1] == b[|b| - 1];
      AttemptsAppend(a, b');
    } else {
      assert a + b == a;
    }
  }

  /** Requests after the first that use a fallback header set. */
  predicate Fallbacks(requests: seq<Request>, url: string) {
    forall i :: 0 < i < |requests| ==> requests[i].url == url && (requests[i].headers.Minimal? || requests[i].headers.Referred?)
  }

  lemma FallbacksAttempt(requests: seq<Request>, url: string)
    requires |requests| > 0 && requests[0].headers.Browser? && Fallbacks(requests, url)
    ensures Attempts(requests) == 1
    decreases |requests|
  {
    if |requests| > 1 {
      var front := requests[..|requests| - 1];
      assert Fallbacks(front, url);
      FallbacksAttempt(front, url);
    }
  }

  /**
   * One attempt of the whole-file loop, continuing a run that has already
   * sent `sent`: the browser-like GET; after a 403, a minimal GET unless
   * this is the last attempt; after a 403 again, a GET with an explicit
   * referer. The first 200 answer ends the attempt with its body.
   */
  method Attempt(url: string, u: Url, last: bool, chunkSize: nat, script: seq<Reply<seq<byte>>>, sent: seq<Request>)
    returns (body: Option<seq<byte>>, requests: seq<Request>)
    requires chunkSize > 0
    ensures |sent| < |requests| <= |sent| + 3
    ensures requests[..|sent|] == sent
    ensures requests[|sent|] == Request(url, BrowserHeaders(u))
    ensures Fallbacks(requests[|sent|..], url)
    ensures forall i :: |sent| <= i < |requests| - 1 ==> IsStatus(ReplyAt(script, i), 403)
    ensures last ==> forall i :: |sent| < i < |requests| ==> requests[i].headers.Referred?
    ensures body.Some? ==> IsStatus(ReplyAt(script, |requests| - 1), 200) && body.value == ReplyAt(script, |requests| - 1).body
    ensures forall i :: |sent| <= i < |requests| && (body.None? || i < |requests| - 1) ==> !IsStatus(ReplyAt(script, i), 200)
    ensures !IsStatus(ReplyAt(script, |sent|), 403) ==> |requests| == |sent| + 1
    ensures IsStatus(ReplyAt(script, |sent|), 403) && !last ==>
              |requests| >= |sent| + 2 && requests[|sent| + 1] == Request(url, Minimal)
              && (IsStatus(ReplyAt(script, |sent| + 1), 403) <==> |requests| == |sent| + 3)
              && (|requests| == |sent| + 3 ==> requests[|sent| + 2] == Request(url, RefererHeaders(u)))
    ensures IsStatus(ReplyAt(script, |sent|), 403) && last ==>
              |requests| == |sent| + 2 && requests[|sent| + 1] == Request(url, RefererHeaders(u))
    ensures LadderClimbed(requests, script, u, |sent|)
  {
    var minimal := Request(url, Minimal);
    var referred := Request(url, RefererHeaders(u));
    var reply := ReplyAt(script, |sent|);
    requests := sent + [Request(url, BrowserHeaders(u))];
    if IsStatus(reply, 403) && !last {
      reply := ReplyAt(script, |requests|);
      requests := requests + [minimal];
    }
    if IsStatus(reply, 200) {
      var written := WriteChunks([], reply.body, chunkSize);
      assert written == reply.body;
      return Some(written), requests;
    } else if IsStatus(reply, 403) {
      reply := ReplyAt(script, |requests|);
      requests := requests + [referred];
      if IsStatus(reply, 200) {
        var written := WriteChunks([], reply.body, chunkSize);
        assert written == reply.body;
        return Some(written), requests;
      }
    }
    body := None;
  }

  /**
   * The whole-file loop, lines 283-337, continuing a run that has already
   * sent `sent`. A 200 answer to any request of the ladder ends it with
   * that body; otherwise it gives up after `maxRetries` attempts.
   */
  method FetchWhole(url: string, u: Url, maxRetries: nat, chunkSize: nat, script: seq<Reply<seq<byte>>>, sent: seq<Request>)
    returns (body: Option<seq<byte>>, requests: seq<Request>)
    requires chunkSize > 0
    ensures |sent| <= |requests| <= |sent| + 3 * maxRetries
    ensures requests[..|sent|] == sent
    ensures forall i :: |sent| <= i < |requests| ==> requests[i].url == url && !requests[i].headers.Ranged?
    ensures maxRetries > 0 ==> |requests| > |sent| && requests[|sent|].headers == BrowserHeaders(u)
    ensures forall i :: |sent| <= i < |requests| && !requests[i].headers.Browser? ==>
              i > |sent| && IsStatus(ReplyAt(script, i - 1), 403)
    ensures body.Some? ==> |requests| > |sent| && IsStatus(ReplyAt(script, |requests| - 1), 200)
                           && body.value == ReplyAt(script, |requests| - 1).body
    ensures forall i :: |sent| <= i < |requests| && (body.None? || i < |requests| - 1) ==> !IsStatus(ReplyAt(script, i), 200)
    ensures body.None? ==> Attempts(requests[|sent|..]) == maxRetries
    ensures LadderClimbed(requests, script, u, |sent|)
    ensures MinimalUnlessLast(requests, script, |sent|, maxRetries)
  {
    requests := sent;
    var attempt := 0;
    while attempt < maxRetries
      invariant attempt <= maxRetries
      invariant |sent| + attempt <= |requests| <= |sent| + 3 * attempt
      invariant requests[..|sent|] == sent
      invariant attempt > 0 ==> requests[|sent|].headers == BrowserHeaders(u)
      invariant WholeShape(requests, sent, url, u, script)
      invariant forall i :: |sent| <= i < |requests| ==> !IsStatus(ReplyAt(script, i), 200)
      invariant Attempts(requests[|sent|..]) == attempt
      invariant MinimalUnlessLast(requests, script, |sent|, maxRetries)
      decreases maxRetries - attempt
    {
      var before := requests;
      body, requests := Attempt(url, u, attempt == maxRetries - 1, chunkSize, script, before);
      StepShape(before, requests, sent, url, u, script);
      StepMinimal(before, requests, sent, script, u, maxRetries, attempt == maxRetries - 1);
      if body.Some? {
        return;
      }
      StepAttempts(before, requests, sent, url);
      attempt := attempt + 1;
    }
    body := None;
  }

  /**
   * The whole-file part of a run after `sent`: every request goes to `url`
   * without a range, a fallback GET only follows a 403, and the ladder is
   * climbed.
   */
  predicate WholeShape<B>(requests: seq<Request>, sent: seq<Request>, url: string, u: Url, script: seq<Reply<B>>) {
    && |sent| <= |requests| && requests[..|sent|] == sent
    && (forall i :: |sent| <= i < |requests| ==> requests[i].url == url && !requests[i].headers.Ranged?)
    && (forall i :: |sent| <= i < |requests| && !requests[i].headers.Browser? ==>
          i > |sent| && IsStatus(ReplyAt(script, i - 1), 403))
    && LadderClimbed(requests, script, u, |sent|)
  }

  /** One more attempt keeps the shape of the whole-file part. */
  lemma StepShape<B>(before: seq<Request>, after: seq<Request>, sent: seq<Request>, url: string, u: Url, script: seq<Reply<B>>)
    requires WholeShape(before, sent, url, u, script)
    requires |before| < |after| && after[..|before|] == before
    requires after[|before|] == Request(url, BrowserHeaders(u)) && Fallbacks(after[|before|..], url)
    requires forall i :: |before| <= i < |after| - 1 ==> IsStatus(ReplyAt(script, i), 403)
    requires LadderClimbed(after, script, u, |before|)
    ensures WholeShape(after, sent, url, u, script)
  {
    assert forall i :: 0 <= i < |before| ==> after[i] == before[i];
    assert forall i :: |before| < i < |after| ==> after[i] == after[|before|..][i - |before|];
    ClimbedExtends(before, after, script, u, |sent|);
  }

  /** One more attempt, minimal-first unless it is the last, keeps `MinimalUnlessLast`. */
  lemma StepMinimal<B>(before: seq<Request>, after: seq<Request>, sent: seq<Request>, script: seq<Reply<B>>, u: Url, n: nat, last: bool)
    requires |sent| <= |before| < |after| && after[..|before|] == before
    requires LadderClimbed(before, script, u, |sent|) && MinimalUnlessLast(before, script, |sent|, n)
    requires Attempts(before[|sent|..]) < n && (last <==> Attempts(before[|sent|..]) + 1 == n)
    requires after[|before|].headers.Browser?
    requires forall i :: |before| < i < |after| ==> !after[i].headers.Browser?
    requires IsStatus(ReplyAt(script, |before|), 403) && !last ==> |after| > |before| + 1 && after[|before| + 1].headers.Minimal?
    requires IsStatus(ReplyAt(script, |before|), 403) && last ==> |after| > |before| + 1 && after[|before| + 1].headers.Referred?
    ensures MinimalUnlessLast(after, script, |sent|, n)
  {
    forall i | |sent| <= i < |after| - 1 && after[i].headers.Browser? && IsStatus(ReplyAt(script, i), 403)
      ensures after[i + 1].headers.Minimal? <==> Attempts(after[|sent|..i + 1]) < n
    {
      if i < |before| {
        assert LadderStep(before, script, u, i);
        assert after[i] == before[i] && after[i + 1] == before[i + 1];
        PrefixSlice(before, after, |sent|, i + 1);
      } else if i == |before| {
        AttemptOpens(before, after, |sent|);
      }
    }
  }

  /** A slice inside a prefix is the same slice of that prefix. */
  lemma PrefixSlice(before: seq<Request>, after: seq<Request>, from: nat, to: nat)
    requires from <= to <= |before| <= |after| && after[..|before|] == before
    ensures after[from..to] == before[from..to]
  {
    forall k | from <= k < to
      ensures after[k] == before[k]
    {
      assert after[..|before|][k] == after[k];
    }
  }

  /** The browser-header GET appended after `before` opens one more attempt. */
  lemma AttemptOpens(before: seq<Request>, after: seq<Request>, from: nat)
    requires from <= |before| < |after| && after[..|before|] == before
    requires after[|before|].headers.Browser?
    ensures Attempts(after[from..|before| + 1]) == Attempts(before[from..]) + 1
  {
    var run := after[from..|before| + 1];
    assert run[..|run| - 1] == before[from..] by {
      forall k | 0 <= k < |before| - from
        ensures run[k] == before[from..][k]
      {
        assert after[..|before|][from + k] == after[from + k];
      }
    }
  }

  /** A ladder climbed up to `before` stays climbed when a climbed attempt is appended. */
  lemma ClimbedExtends<B>(before: seq<Request>, after: seq<Request>, script: seq<Reply<B>>, u: Url, from: nat)
    requires from <= |before| <= |after| && after[..|before|] == before
    requires LadderClimbed(before, script, u, from) && LadderClimbed(after, script, u, |before|)
    ensures LadderClimbed(after, script, u, from)
  {
    forall i | from <= i < |after|
      ensures LadderStep(after, script, u, i)
    {
      if i < |before| {
        assert LadderStep(before, script, u, i);
        assert after[i] == before[i];
        assert i + 1 < |before| ==> after[i + 1] == before[i + 1];
      } else {
        assert LadderStep(after, script, u, i);
      }
    }
  }

  lemma StepAttempts(before: seq<Request>, after: seq<Request>, sent: seq<Request>, url: string)
    requires |sent| <= |before| < |after|
    requires after[..|before|] == before && before[..|sent|] == sent
    requires after[|before|].headers.Browser? && Fallbacks(after[|before|..], url)
    ensures after[..|sent|] == sent
    ensures Attempts(after[|sent|..]) == Attempts(before[|sent|..]) + 1
  {
    FallbacksAttempt(after[|before|..], url);
    assert after[|sent|..] == before[|sent|..] + after[|before|..];
    AttemptsAppend(before[|sent|..], after[|before|..]);
  }

  /**
   * `download_single_ts(url, path, maxRetries, chunkSize)` on a segment file
   * in state `file`, where `u` is `urlparse(url)`: whether it returns True,
   * the file it leaves, and the GETs it sends, the k-th answered by
   * `ReplyAt(script, k)`.
   */
  method DownloadSegment(url: string, u: Url, file: Option<seq<byte>>, maxRetries: nat, chunkSize: nat, script: seq<Reply<seq<byte>>>)
    returns (ok: bool, saved: Option<seq<byte>>, requests: seq<Request>)
    requires chunkSize > 0
    ensures |requests| <= 4 * maxRetries
    ensures forall i :: 0 <= i < |requests| ==> requests[i].url == url
    ensures RangedFirst(requests, Size(file)) && (Size(file) == 0 ==> forall i :: 0 <= i < |requests| ==> !requests[i].headers.Ranged?)
    ensures LadderAfter403(requests, script)
    ensures LadderClimbed(requests, script, u, 0)
    ensures MinimalUnlessLast(requests, script, 0, maxRetries)
    ensures ok ==> Succeeded(file, saved, requests, script)
    ensures !ok ==> saved == file || (saved == None && Size(file) > 0)
    ensures Size(file) > 0 && (forall i :: 0 <= i < maxRetries ==> ReplyAt(script, i).Raised?) ==>
              !ok && saved == file && |requests| == maxRetries
    ensures Size(file) > 0 ==> ResumeAnswered(url, u, file, maxRetries, script, ok, saved, requests)
    ensures Size(file) == 0 && maxRetries > 0 ==> |requests| > 0 && requests[0] == Request(url, BrowserHeaders(u))
    ensures Size(file) == 0 && !ok ==> Attempts(requests) == maxRetries
    ensures !ok ==> forall i :: 0 <= i < |requests| && !requests[i].headers.Ranged? ==> !IsStatus(ReplyAt(script, i), 200)
  {
    requests := [];
    saved := file;
    if Size(file) > 0 {
      var end;
      end, requests := Resume(url, u, file.value, maxRetries, chunkSize, script);
      RangedOnlyLaddered(requests, script, u, maxRetries);
      match end
      case Appended(contents) =>
        FirstAnswerIsLast(script, |requests|);
        AppendedAnswered(url, u, file, maxRetries, script, contents, requests);
        return true, Some(contents), requests;
      case GaveUp =>
        GaveUpAnswered(url, u, file, maxRetries, script, requests);
        return false, file, requests;
      case Refused =>
        FirstAnswerIsLast(script, |requests|);
        saved := None;
    }
    var ranged := requests;
    var body;
    body, requests := FetchWhole(url, u, maxRetries, chunkSize, script, ranged);
    RunShape(url, u, Size(file), maxRetries, ranged, requests, script);
    if body.Some? {
      ok, saved := true, body;
    } else {
      ok := false;
      RangedThenWhole(ranged, requests, script);
    }
    if Size(file) > 0 {
      RefusedAnswered(url, u, file, maxRetries, script, ok, saved, ranged, requests);
    }
  }

  /**
   * When the `k`-th ranged request is the first one answered, a 206 ends the
   * run there with the answer appended, and any other status is followed by
   * the first whole-file request; if that part fails the file is gone and
   * every attempt was made.
   */
  predicate ResumeAnswered(url: string, u: Url, file: Option<seq<byte>>, maxRetries: nat, script: seq<Reply<seq<byte>>>,
                           ok: bool, saved: Option<seq<byte>>, requests: seq<Request>)
    requires file.Some?
  {
    forall k: nat :: k < maxRetries && FirstAnswer(script, k) ==>
      if IsStatus(ReplyAt(script, k), 206)
      then ok && |requests| == k + 1 && saved == Some(file.value + ReplyAt(script, k).body)
      else |requests| > k + 1 && requests[k + 1] == Request(url, BrowserHeaders(u))
           && (!ok ==> saved == None && Attempts(requests) == maxRetries)
  }

  lemma AppendedAnswered(url: string, u: Url, file: Option<seq<byte>>, maxRetries: nat, script: seq<Reply<seq<byte>>>,
                         contents: seq<byte>, requests: seq<Request>)
    requires file.Some? && |requests| > 0
    requires forall k: nat :: FirstAnswer(script, k) ==> k == |requests| - 1
    requires IsStatus(ReplyAt(script, |requests| - 1), 206)
    requires contents == file.value + ReplyAt(script, |requests| - 1).body
    ensures ResumeAnswered(url, u, file, maxRetries, script, true, Some(contents), requests)
  {
  }

  lemma GaveUpAnswered(url: string, u: Url, file: Option<seq<byte>>, maxRetries: nat, script: seq<Reply<seq<byte>>>,
                       requests: seq<Request>)
    requires file.Some?
    requires forall i :: 0 <= i < maxRetries ==> ReplyAt(script, i).Raised?
    ensures ResumeAnswered(url, u, file, maxRetries, script, false, file, requests)
  {
  }

  lemma RefusedAnswered(url: string, u: Url, file: Option<seq<byte>>, maxRetries: nat, script: seq<Reply<seq<byte>>>,
                        ok: bool, saved: Option<seq<byte>>, ranged: seq<Request>, requests: seq<Request>)
    requires file.Some? && |ranged| > 0
    requires forall k: nat :: FirstAnswer(script, k) ==> k == |ranged| - 1
    requires FirstAnswer(script, |ranged| - 1) && !IsStatus(ReplyAt(script, |ranged| - 1), 206)
    requires |requests| > |ranged| && requests[|ranged|] == Request(url, BrowserHeaders(u))
    requires !ok ==> saved == None && Attempts(requests) == maxRetries
    ensures ResumeAnswered(url, u, file, maxRetries, script, ok, saved, requests)
  {
  }

  /** Ranged requests at `offset` followed by whole-file requests of the ladder keep the run's shape. */
  lemma RunShape<B>(url: string, u: Url, offset: nat, n: nat, ranged: seq<Request>, requests: seq<Request>, script: seq<Reply<B>>)
    requires |ranged| <= |requests| && requests[..|ranged|] == ranged
    requires forall i :: 0 <= i < |ranged| ==> ranged[i] == RangedRequest(url, u, offset)
    requires forall i :: |ranged| <= i < |requests| ==> requests[i].url == url && !requests[i].headers.Ranged?
    requires forall i :: |ranged| <= i < |requests| && !requests[i].headers.Browser? ==>
               i > |ranged| && IsStatus(ReplyAt(script, i - 1), 403)
    requires LadderClimbed(requests, script, u, |ranged|)
    requires MinimalUnlessLast(requests, script, |ranged|, n)
    ensures forall i :: 0 <= i < |requests| ==> requests[i].url == url
    ensures RangedFirst(requests, offset)
    ensures LadderAfter403(requests, script)
    ensures LadderClimbed(requests, script, u, 0)
    ensures MinimalUnlessLast(requests, script, 0, n)
  {
    assert forall i :: 0 <= i < |ranged| ==> requests[i] == ranged[i];
    RangedThenMinimal(ranged, requests, script, n);
  }

  /** The `k`-th request is the first one answered: every earlier one raised. */
  predicate FirstAnswer<B>(script: seq<Reply<B>>, k: nat) {
    ReplyAt(script, k).Answer? && forall j :: 0 <= j < k ==> ReplyAt(script, j).Raised?
  }

  /** When the last of `n` requests is the first answered, it is the only first answer. */
  lemma FirstAnswerIsLast<B>(script: seq<Reply<B>>, n: nat)
    requires n > 0 && FirstAnswer(script, n - 1)
    ensures forall k: nat :: FirstAnswer(script, k) ==> k == n - 1
  {
    forall k: nat | FirstAnswer(script, k)
      ensures k == n - 1
    {
    }
  }

  /** Ranged requests open no attempt, so the attempts of a run are those of its whole-file part. */
  lemma RangedThenWhole<B>(ranged: seq<Request>, requests: seq<Request>, script: seq<Reply<B>>)
    requires |ranged| <= |requests| && requests[..|ranged|] == ranged
    requires forall i :: 0 <= i < |ranged| ==> ranged[i].headers.Ranged?
    requires forall i :: |ranged| <= i < |requests| ==> !IsStatus(ReplyAt(script, i), 200)
    ensures Attempts(requests) == Attempts(requests[|ranged|..])
    ensures forall i :: 0 <= i < |requests| && !requests[i].headers.Ranged? ==> !IsStatus(ReplyAt(script, i), 200)
  {
    assert forall i :: 0 <= i < |ranged| ==> requests[i] == ranged[i];
    RangedNoAttempts(ranged);
    assert requests == ranged + requests[|ranged|..];
    AttemptsAppend(ranged, requests[|ranged|..]);
  }

  /** Ranged requests open no attempt, so `MinimalUnlessLast` of the whole-file part holds for the run. */
  lemma RangedThenMinimal<B>(ranged: seq<Request>, requests: seq<Request>, script: seq<Reply<B>>, n: nat)
    requires |ranged| <= |requests| && requests[..|ranged|] == ranged
    requires forall i :: 0 <= i < |ranged| ==> ranged[i].headers.Ranged?
    requires MinimalUnlessLast(requests, script, |ranged|, n)
    ensures MinimalUnlessLast(requests, script, 0, n)
  {
    RangedNoAttempts(ranged);
    forall k | |ranged| < k <= |requests|
      ensures Attempts(requests[0..k]) == Attempts(requests[|ranged|..k])
    {
      assert requests[0..k] == ranged + requests[|ranged|..k];
      AttemptsAppend(ranged, requests[|ranged|..k]);
    }
    assert forall i :: 0 <= i < |ranged| ==> requests[i] == ranged[i];
  }

  /** A run of ranged requests only satisfies the ladder predicates vacuously. */
  lemma RangedOnlyLaddered<B>(requests: seq<Request>, script: seq<Reply<B>>, u: Url, n: nat)
    requires forall i :: 0 <= i < |requests| ==> requests[i].headers.Ranged?
    ensures LadderAfter403(requests, script)
    ensures LadderClimbed(requests, script, u, 0)
    ensures MinimalUnlessLast(requests, script, 0, n)
  {
  }

  lemma {:induction false} RangedNoAttempts(rs: seq<Request>)
    requires forall i :: 0 <= i < |rs| ==> rs[i].headers.Ranged?
    ensures Attempts(rs) == 0
    decreases |rs|
  {
    if |rs| > 0 {
      RangedNoAttempts(rs[..|rs| - 1]);
    }
  }
}
