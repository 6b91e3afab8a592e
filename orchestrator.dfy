/**
 * The bookkeeping of `download_ts_files`: reading the saved playlist into
 * segment URLs and file names, skipping segments already on disk, choosing
 * the number of workers, and gathering the workers' results. The thread
 * pool is replaced by a sequence of per-task results and the order in which
 * the tasks complete; the directory listing is a finite set of names.
 */
module Orchestrator {
  import opened Wrappers
  import opened Text
  import opened Urls

  /**
   * The lines of the playlist as read in text mode: "\r\n" and "\r" end a
   * line like "\n". Each '\r' becomes a line break of its own, which only
   * adds empty lines; empty lines are skipped.
   */
  function Lines(text: string): (lines: seq<string>)
    ensures |lines| >= 1
    ensures forall k :: 0 <= k < |lines| ==> '\n' !in lines[k]
  {
    Split(seq(|text|, k requires 0 <= k < |text| => if text[k] == '\r' then '\n' else text[k]), '\n')
  }

  /** A stripped line that names a segment: not empty and not a tag or comment. */
  predicate IsUri(line: string) {
    line != "" && line[0] != '#'
  }

  /** The stripped URI lines of the playlist, in order. */
  function Uris(lines: seq<string>): (uris: seq<string>)
    ensures |uris| <= |lines|
    ensures forall k :: 0 <= k < |uris| ==> IsUri(uris[k])
  {
    if |lines| == 0 then []
    else Uris(AllButLast(lines)) + (if IsUri(Strip(Last(lines))) then [Strip(Last(lines))] else [])
  }

  /** The prefix of relative URIs: the playlist's directory, or the whole path when it names no playlist. */
  function BaseUrl(u: Url): (r: string)
    ensures StartsWith(r, Origin(u))
    ensures Contains(u.path, ".m3u8") ==> EndsWith(r, "/")
  {
    var basePath := if Contains(u.path, ".m3u8") then Parent(u.path) + "/" else u.path;
    Origin(u) + basePath
  }

  /** The URL of a segment named by `line` in the playlist at `u`, before the query is added. */
  function Absolute(u: Url, line: string): (r: string)
    ensures EndsWith(r, line)
    ensures !StartsWith(line, "http") ==> StartsWith(r, Origin(u))
  {
    if StartsWith(line, "http") then line
    else if StartsWith(line, "/") then Origin(u) + line
    else BaseUrl(u) + line
  }

  /** The segment URL, carrying the playlist's query when it has none of its own. */
  function Resolve(u: Url, line: string): (r: string)
    ensures r != Absolute(u, line) <==> u.query != "" && '?' !in Absolute(u, line)
    ensures r != Absolute(u, line) ==> EndsWith(r, "?" + u.query)
  {
    var url := Absolute(u, line);
    if u.query != "" && '?' !in url then
      var r := url + "?" + u.query;
      assert r[|url| + 1..] == u.query;
      r
    else url
  }

  /** The segment URL extends the resolved line, and carries a query whenever the playlist has one. */
  lemma ResolveShape(u: Url, line: string)
    ensures u.query != "" ==> '?' in Resolve(u, line)
    ensures StartsWith(Resolve(u, line), Absolute(u, line))
  {
    var url := Absolute(u, line);
    if u.query != "" && '?' !in url {
      var r := url + "?" + u.query;
      assert r[|url|] == '?';
      assert r[..|url|] == url;
    }
  }

  /** The file name of a segment: the line before its first '?', after its last '/'. */
  function FileName(line: string): (name: string)
    ensures '?' !in name && '/' !in name
  {
    var name := if '?' in line then Split(line, '?')[0] else line;
    if '/' in name then
      SplitPiecesWithout(name, '/', '?');
      Last(Split(name, '/'))
    else name
  }

  /** Absolute URIs pass through, rooted ones get the origin, others the base URL. */
  lemma AbsoluteShape(u: Url, line: string)
    ensures StartsWith(line, "http") ==> StartsWith(Resolve(u, line), line)
    ensures !StartsWith(line, "http") && StartsWith(line, "/") ==> StartsWith(Resolve(u, line), Origin(u) + line)
    ensures !StartsWith(line, "http") && !StartsWith(line, "/") ==> StartsWith(Resolve(u, line), BaseUrl(u) + line)
  {
  }

  lemma UrisSnoc(lines: seq<string>, line: string)
    ensures Uris(lines + [line]) == Uris(lines) + (if IsUri(Strip(line)) then [Strip(line)] else [])
  {
    SnocParts(lines, line);
  }

  lemma PrefixSnoc(lines: seq<string>, i: nat)
    requires i < |lines|
    ensures var line := Strip(lines[i]);
            Uris(lines[..i + 1]) == Uris(lines[..i]) + (if IsUri(line) then [line] else [])
  {
    assert lines[..i + 1] == lines[..i] + [lines[i]];
    UrisSnoc(lines[..i], lines[i]);
  }

  /** The URL of every URI line, in order. */
  function ResolveAll(u: Url, uris: seq<string>): (urls: seq<string>)
    ensures |urls| == |uris|
  {
    if |uris| == 0 then [] else ResolveAll(u, AllButLast(uris)) + [Resolve(u, Last(uris))]
  }

  /** The file name of every URI line, in order. */
  function NameAll(uris: seq<string>): (names: seq<string>)
    ensures |names| == |uris|
  {
    if |uris| == 0 then [] else NameAll(AllButLast(uris)) + [FileName(Last(uris))]
  }

  /** The `k`-th URL and name are those of the `k`-th URI line. */
  lemma {:induction false} ParsedAt(u: Url, uris: seq<string>, k: nat)
    requires k < |uris|
    ensures ResolveAll(u, uris)[k] == Resolve(u, uris[k])
    ensures NameAll(uris)[k] == FileName(uris[k])
  {
    if k < |uris| - 1 {
      ParsedAt(u, AllButLast(uris), k);
    }
  }

  lemma ParseStep(u: Url, uris: seq<string>, line: string)
    ensures ResolveAll(u, uris + [line]) == ResolveAll(u, uris) + [Resolve(u, line)]
    ensures NameAll(uris + [line]) == NameAll(uris) + [FileName(line)]
  {
    SnocParts(uris, line);
  }

  /** `urls` and `names` hold what the loop collects from the first `i` lines. */
  predicate ParsedUpTo(lines: seq<string>, i: nat, u: Url, urls: seq<string>, names: seq<string>) {
    i <= |lines| && urls == ResolveAll(u, Uris(lines[..i])) && names == NameAll(Uris(lines[..i]))
  }

  lemma ParseNext(lines: seq<string>, i: nat, u: Url, urls: seq<string>, names: seq<string>)
    requires i < |lines| && ParsedUpTo(lines, i, u, urls, names)
    ensures var line := Strip(lines[i]);
            if IsUri(line) then ParsedUpTo(lines, i + 1, u, urls + [Resolve(u, line)], names + [FileName(line)])
            else ParsedUpTo(lines, i + 1, u, urls, names)
  {
    var line := Strip(lines[i]);
    var pre := Uris(lines[..i]);
    PrefixSnoc(lines, i);
    if IsUri(line) {
      assert Uris(lines[..i + 1]) == pre + [line];
      ParseStep(u, pre, line);
    } else {
      assert Uris(lines[..i + 1]) == pre + [];
      assert pre + [] == pre;
    }
  }

  /**
   * The parse loop: one URL and one file name per URI line, in line order.
   */
  method ParseLines(lines: seq<string>, u: Url) returns (urls: seq<string>, names: seq<string>)
    ensures urls == ResolveAll(u, Uris(lines))
    ensures names == NameAll(Uris(lines))
  {
    urls, names := [], [];
    var i := 0;
    while i < |lines|
      invariant ParsedUpTo(lines, i, u, urls, names)
    {
      ParseNext(lines, i, u, urls, names);
      var line := Strip(lines[i]);
      if IsUri(line) {
        urls, names := urls + [Resolve(u, line)], names + [FileName(line)];
      }
      i := i + 1;
    }
    assert lines[..i] == lines;
  }

  /** Reads the saved playlist text and parses its lines. */
  method ParsePlaylist(text: string, u: Url) returns (urls: seq<string>, names: seq<string>)
    ensures urls == ResolveAll(u, Uris(Lines(text)))
    ensures names == NameAll(Uris(Lines(text)))
  {
    urls, names := ParseLines(Lines(text), u);
  }

  /** A segment: its position in the playlist, its URL and its file name. */
  datatype Task = Task(index: nat, url: string, name: string)

  /** The segment is on disk under its own name or under its numbered name. */
  predicate Present(t: Task, existing: set<string>) {
    t.name in existing || NumberedName(t.index) in existing
  }

  /** The tasks whose presence is `present`, in order. */
  function Select(tasks: seq<Task>, existing: set<string>, present: bool): (r: seq<Task>)
    ensures |r| <= |tasks|
  {
    if |tasks| == 0 then []
    else Select(AllButLast(tasks), existing, present)
         + (if Present(Last(tasks), existing) == present then [Last(tasks)] else [])
  }

  lemma SelectSnoc(tasks: seq<Task>, t: Task, existing: set<string>, present: bool)
    ensures Select(tasks + [t], existing, present)
            == Select(tasks, existing, present) + (if Present(t, existing) == present then [t] else [])
  {
    SnocParts(tasks, t);
  }

  /** The two selections by presence have as many tasks together as there are tasks. */
  lemma {:induction false} SelectCount(tasks: seq<Task>, existing: set<string>)
    ensures |Select(tasks, existing, true)| + |Select(tasks, existing, false)| == |tasks|
  {
    if |tasks| > 0 {
      SelectCount(AllButLast(tasks), existing);
    }
  }

  /** A task is selected exactly when it is one of the tasks and its presence is the one asked for. */
  lemma {:induction false} SelectMembers(tasks: seq<Task>, existing: set<string>, present: bool)
    ensures forall t :: t in Select(tasks, existing, present) <==> t in tasks && Present(t, existing) == present
  {
    if |tasks| > 0 {
      SelectMembers(AllButLast(tasks), existing, present);
      LastSplit(tasks);
    }
  }

  /** The selections by presence split the tasks: each goes to exactly one side, and the counts add up. */
  lemma SelectPartition(tasks: seq<Task>, existing: set<string>)
    ensures |Select(tasks, existing, true)| + |Select(tasks, existing, false)| == |tasks|
    ensures forall t :: t in Select(tasks, existing, true) <==> t in tasks && Present(t, existing)
    ensures forall t :: t in Select(tasks, existing, false) <==> t in tasks && !Present(t, existing)
  {
    SelectCount(tasks, existing);
    SelectMembers(tasks, existing, true);
    SelectMembers(tasks, existing, false);
  }

  /** The tasks of a parsed playlist, numbered from 0. */
  function Tasks(urls: seq<string>, names: seq<string>): (ts: seq<Task>)
    requires |urls| == |names|
    ensures |ts| == |urls|
    ensures forall i :: 0 <= i < |ts| ==> ts[i] == Task(i, urls[i], names[i])
  {
    seq(|urls|, i requires 0 <= i < |urls| => Task(i, urls[i], names[i]))
  }

  /** The filter loop: segments already on disk count as done, the others are to be fetched. */
  method FilterExisting(tasks: seq<Task>, existing: set<string>) returns (done: seq<Task>, pending: seq<Task>)
    ensures done == Select(tasks, existing, true)
    ensures pending == Select(tasks, existing, false)
  {
    done, pending := [], [];
    var i := 0;
    while i < |tasks|
      invariant FilteredUpTo(tasks, existing, i, done, pending)
    {
      FilterNext(tasks, existing, i, done, pending);
      if Present(tasks[i], existing) {
        done := done + [tasks[i]];
      } else {
        pending := pending + [tasks[i]];
      }
      i := i + 1;
    }
    assert tasks[..i] == tasks;
  }

  /** What the filter loop holds after the first `i` tasks. */
  predicate FilteredUpTo(tasks: seq<Task>, existing: set<string>, i: nat, done: seq<Task>, pending: seq<Task>) {
    && i <= |tasks|
    && done == Select(tasks[..i], existing, true)
    && pending == Select(tasks[..i], existing, false)
  }

  lemma FilterNext(tasks: seq<Task>, existing: set<string>, i: nat, done: seq<Task>, pending: seq<Task>)
    requires i < |tasks| && FilteredUpTo(tasks, existing, i, done, pending)
    ensures if Present(tasks[i], existing) then FilteredUpTo(tasks, existing, i + 1, done + [tasks[i]], pending)
            else FilteredUpTo(tasks, existing, i + 1, done, pending + [tasks[i]])
  {
    assert tasks[..i + 1] == tasks[..i] + [tasks[i]];
    SelectSnoc(tasks[..i], tasks[i], existing, true);
    SelectSnoc(tasks[..i], tasks[i], existing, false);
    assert done + [] == done;
    assert pending + [] == pending;
  }

  /** The tasks of the playlist text read from disk, for the playlist URL `u`. */
  function SegmentTasks(text: string, u: Url): (ts: seq<Task>)
    ensures |ts| == |Uris(Lines(text))|
  {
    var uris := Uris(Lines(text));
    Tasks(ResolveAll(u, uris), NameAll(uris))
  }

  /** The `i`-th task is the `i`-th URI line of the playlist, resolved and named. */
  lemma SegmentTaskAt(text: string, u: Url, i: nat)
    requires i < |Uris(Lines(text))|
    ensures var uri := Uris(Lines(text))[i];
            SegmentTasks(text, u)[i] == Task(i, Resolve(u, uri), FileName(uri))
  {
    ParsedAt(u, Uris(Lines(text)), i);
  }

  /** The task submitted for a pending segment: the file it is saved under, by the naming setting. */
  function Job(t: Task, useOriginal: bool): (j: Task)
    ensures j.index == t.index && j.url == t.url
    ensures j.name == t.name || j.name == NumberedName(t.index)
  {
    Task(t.index, t.url, if useOriginal then t.name else NumberedName(t.index))
  }

  function Jobs(pending: seq<Task>, useOriginal: bool): (js: seq<Task>)
    ensures |js| == |pending|
    ensures forall k :: 0 <= k < |js| ==> js[k] == Job(pending[k], useOriginal)
  {
    seq(|pending|, k requires 0 <= k < |pending| => Job(pending[k], useOriginal))
  }

  datatype Plan =
    /** No saved playlist: the run returns False. */
    | PlaylistMissing
    /** No URI line: the run returns False. */
    | NoSegments
    /** Every segment is on disk: the run returns True without downloading. */
    | AllPresent(done: seq<Task>)
    /** The segments on disk, the tasks to submit, and the total shown in progress reports. */
    | Download(done: seq<Task>, jobs: seq<Task>, total: nat)

  /**
   * Lines 387-468: read the saved playlist (absent when `playlist` is
   * `None`), parse it, and split its segments by what the directory
   * listing `existing` already holds.
   */
  method Prepare(playlist: Option<string>, u: Url, existing: set<string>, useOriginal: bool) returns (plan: Plan)
    ensures playlist.None? <==> plan.PlaylistMissing?
    ensures playlist.Some? ==> (plan.NoSegments? <==> SegmentTasks(playlist.value, u) == [])
    ensures plan.AllPresent? ==>
              && playlist.Some?
              && plan.done == SegmentTasks(playlist.value, u)
              && Select(SegmentTasks(playlist.value, u), existing, false) == []
    ensures plan.Download? ==>
              && playlist.Some?
              && var ts := SegmentTasks(playlist.value, u);
              && plan.done == Select(ts, existing, true)
              && plan.jobs == Jobs(Select(ts, existing, false), useOriginal)
              && plan.jobs != []
              && plan.total == |ts| == |plan.done| + |plan.jobs|
  {
    if playlist.None? {
      return PlaylistMissing;
    }
    var urls, names := ParsePlaylist(playlist.value, u);
    if |urls| == 0 {
      return NoSegments;
    }
    var tasks := Tasks(urls, names);
    assert tasks == SegmentTasks(playlist.value, u);
    var done, pending := FilterExisting(tasks, existing);
    SelectPartition(tasks, existing);
    if |pending| == 0 {
      AllSelected(tasks, existing);
      return AllPresent(done);
    }
    plan := Download(done, Jobs(pending, useOriginal), |done| + |pending|);
  }

  /** When nothing is missing, the present tasks are all the tasks. */
  lemma {:induction false} AllSelected(tasks: seq<Task>, existing: set<string>)
    requires Select(tasks, existing, false) == []
    ensures Select(tasks, existing, true) == tasks
  {
    if |tasks| > 0 {
      AllSelected(AllButLast(tasks), existing);
      LastSplit(tasks);
    }
  }

  /** When every task is present, nothing is missing. */
  lemma {:induction false} NoneMissing(tasks: seq<Task>, existing: set<string>)
    requires forall t :: t in tasks ==> Present(t, existing)
    ensures Select(tasks, existing, false) == []
  {
    if |tasks| > 0 {
      assert Last(tasks) in tasks;
      assert forall t :: t in AllButLast(tasks) ==> t in tasks;
      NoneMissing(AllButLast(tasks), existing);
    }
  }

  /**
   * Resuming after a run that saved every submitted segment finds nothing
   * left to fetch: each job's file is under the original or the numbered
   * name, and both are looked for.
   */
  lemma ResumeIsIdempotent(tasks: seq<Task>, existing: set<string>, later: set<string>, useOriginal: bool)
    requires existing <= later
    requires forall j :: j in Jobs(Select(tasks, existing, false), useOriginal) ==> j.name in later
    ensures Select(tasks, later, false) == []
  {
    SelectPartition(tasks, existing);
    var pending := Select(tasks, existing, false);
    forall t | t in tasks
      ensures Present(t, later)
    {
      if !Present(t, existing) {
        var k :| 0 <= k < |pending| && pending[k] == t;
        assert Jobs(pending, useOriginal)[k] == Job(t, useOriginal);
      }
    }
    NoneMissing(tasks, later);
  }

  /** The network tier measured before the downloads start. */
  datatype Tier = Fast | Medium | Slow | Unknown

  function Min(a: int, b: int): int {
    if a <= b then a else b
  }

  /** The number of download workers for a tier and the `max_threads` setting. */
  function Workers(tier: Tier, maxThreads: int): (n: int)
    ensures n <= maxThreads
    ensures tier == Medium ==> n <= 20
    ensures tier == Slow ==> n <= 10
    ensures tier == Fast || tier == Unknown ==> n == maxThreads
    ensures n == maxThreads || (tier == Medium && n == 20) || (tier == Slow && n == 10)
  {
    match tier
    case Fast => maxThreads
    case Medium => Min(20, maxThreads)
    case Slow => Min(10, maxThreads)
    case Unknown => maxThreads
  }

  /** Every position below `n` completes, once, within the completion order. */
  predicate CompletionOrder(order: seq<nat>, n: nat) {
    && |order| == n
    && (forall k :: 0 <= k < |order| ==> order[k] < n)
    && (forall p :: 0 <= p < n ==> p in order)
  }

  /** The positions among `order` whose result is `outcome`, in completion order. */
  function Finished(results: seq<bool>, order: seq<nat>, outcome: bool): (ps: seq<nat>)
    requires forall k :: 0 <= k < |order| ==> order[k] < |results|
    ensures forall k :: 0 <= k < |ps| ==> ps[k] < |results|
    ensures |ps| <= |order|
  {
    if |order| == 0 then []
    else Finished(results, AllButLast(order), outcome)
         + (if results[Last(order)] == outcome then [Last(order)] else [])
  }

  function Pick(jobs: seq<Task>, ps: seq<nat>): (ts: seq<Task>)
    requires forall k :: 0 <= k < |ps| ==> ps[k] < |jobs|
    ensures |ts| == |ps|
  {
    seq(|ps|, k requires 0 <= k < |ps| => jobs[ps[k]])
  }

  /** Each position of the order lands on the side of its result, and the two sides add up to the order. */
  lemma {:induction false} FinishedPartition(results: seq<bool>, order: seq<nat>)
    requires forall k :: 0 <= k < |order| ==> order[k] < |results|
    ensures |Finished(results, order, true)| + |Finished(results, order, false)| == |order|
    ensures forall p :: p in Finished(results, order, true) <==> p in order && results[p]
    ensures forall p :: p in Finished(results, order, false) <==> p in order && !results[p]
  {
    if |order| > 0 {
      FinishedPartition(results, AllButLast(order));
      LastSplit(order);
    }
  }

  /**
   * When every task completes, the failure list is empty exactly when every
   * task succeeded, and every task is on exactly one side.
   */
  lemma EveryTaskAccounted(results: seq<bool>, order: seq<nat>)
    requires CompletionOrder(order, |results|)
    ensures Finished(results, order, false) == [] <==> forall p :: 0 <= p < |results| ==> results[p]
    ensures forall p :: 0 <= p < |results| ==>
              (p in Finished(results, order, true) <==> results[p])
              && (p in Finished(results, order, false) <==> !results[p])
  {
    FinishedPartition(results, order);
    if Finished(results, order, false) != [] {
      assert Finished(results, order, false)[0] in Finished(results, order, false);
    }
  }

  lemma FinishedSnoc(results: seq<bool>, order: seq<nat>, k: nat, outcome: bool)
    requires k < |order| && forall j :: 0 <= j < |order| ==> order[j] < |results|
    ensures Finished(results, order[..k + 1], outcome)
            == Finished(results, order[..k], outcome) + (if results[order[k]] == outcome then [order[k]] else [])
  {
    assert AllButLast(order[..k + 1]) == order[..k];
  }

  /**
   * The `as_completed` loop, lines 513-555: task `p` of `jobs` finishes with
   * `results[p]`, the tasks finishing in the order `order`. Each success is
   * appended to the tasks already `done` and reported as a progress count
   * out of the total; each failure is appended to the failure list. The run
   * returns True (`ok`) exactly when no task failed.
   */
  method Collect(done: seq<Task>, jobs: seq<Task>, results: seq<bool>, order: seq<nat>)
    returns (succeeded: seq<Task>, failed: seq<Task>, reports: seq<nat>, ok: bool)
    requires |results| == |jobs|
    requires CompletionOrder(order, |jobs|)
    ensures succeeded == done + Pick(jobs, Finished(results, order, true))
    ensures failed == Pick(jobs, Finished(results, order, false))
    ensures |succeeded| + |failed| == |done| + |jobs|
    ensures |reports| == |succeeded| - |done|
    ensures forall k :: 0 <= k < |reports| ==> reports[k] == |done| + k + 1 <= |done| + |jobs|
    ensures ok <==> forall p :: 0 <= p < |jobs| ==> results[p]
  {
    succeeded, failed, reports := done, [], [];
    var k := 0;
    assert done + [] == done;
    while k < |order|
      invariant CollectedUpTo(done, jobs, results, order, k, succeeded, failed, reports)
    {
      var p := order[k];
      CollectNext(done, jobs, results, order, k, succeeded, failed, reports);
      if results[p] {
        succeeded := succeeded + [jobs[p]];
        reports := reports + [|succeeded|];
      } else {
        failed := failed + [jobs[p]];
      }
      k := k + 1;
    }
    assert order[..k] == order;
    FinishedPartition(results, order);
    EveryTaskAccounted(results, order);
    ok := |failed| == 0;
  }

  /**
   * `download_ts_files` from the saved playlist to its boolean result, with
   * `outcome(j)` standing for what `download_single_ts` returns for job `j`.
   * The jobs are collected in submission order; `Collect` shows that the
   * result does not depend on the order in which they complete.
   */
  method DownloadTsFiles(playlist: Option<string>, u: Url, existing: set<string>, useOriginal: bool, outcome: Task -> bool)
    returns (ok: bool)
    ensures playlist.None? ==> !ok
    ensures playlist.Some? && SegmentTasks(playlist.value, u) == [] ==> !ok
    ensures playlist.Some? ==>
              (SegmentTasks(playlist.value, u) != [] && Select(SegmentTasks(playlist.value, u), existing, false) == [] ==> ok)
    ensures playlist.Some? && Select(SegmentTasks(playlist.value, u), existing, false) != [] ==>
              (ok <==> forall t :: t in Select(SegmentTasks(playlist.value, u), existing, false) ==> outcome(Job(t, useOriginal)))
  {
    var plan := Prepare(playlist, u, existing, useOriginal);
    match plan
    case PlaylistMissing =>
      ok := false;
    case NoSegments =>
      ok := false;
    case AllPresent(_) =>
      ok := true;
    case Download(done, jobs, total) =>
      var succeeded, failed, reports;
      succeeded, failed, reports, ok := Collect(done, jobs, Outcomes(jobs, outcome), Submitted(|jobs|));
      JobsOutcome(Select(SegmentTasks(playlist.value, u), existing, false), useOriginal, outcome);
  }

  /** What each job returns, by position. */
  function Outcomes(jobs: seq<Task>, outcome: Task -> bool): (results: seq<bool>)
    ensures |results| == |jobs|
    ensures forall p :: 0 <= p < |jobs| ==> results[p] == outcome(jobs[p])
  {
    seq(|jobs|, p requires 0 <= p < |jobs| => outcome(jobs[p]))
  }

  /** The positions in submission order, one completion order among many. */
  function Submitted(n: nat): (order: seq<nat>)
    ensures CompletionOrder(order, n)
  {
    var order := seq(n, p requires 0 <= p < n => p as nat);
    forall p | 0 <= p < n
      ensures p in order
    {
      assert order[p] == p;
    }
    order
  }

  /** Every job succeeds exactly when the outcome holds for the job of every pending task. */
  lemma JobsOutcome(pending: seq<Task>, useOriginal: bool, outcome: Task -> bool)
    ensures var results := Outcomes(Jobs(pending, useOriginal), outcome);
            (forall p :: 0 <= p < |pending| ==> results[p]) <==> forall t :: t in pending ==> outcome(Job(t, useOriginal))
  {
    var js := Jobs(pending, useOriginal);
    var results := Outcomes(js, outcome);
    assert forall p :: 0 <= p < |pending| ==> results[p] == outcome(Job(pending[p], useOriginal)) && pending[p] in pending;
    if forall p :: 0 <= p < |pending| ==> outcome(js[p]) {
      forall t | t in pending
        ensures outcome(Job(t, useOriginal))
      {
        var p :| 0 <= p < |pending| && pending[p] == t;
        assert js[p] == Job(t, useOriginal);
      }
    }
  }

  /** Appending a position appends its job. */
  lemma PickSnoc(jobs: seq<Task>, ps: seq<nat>, p: nat)
    requires forall k :: 0 <= k < |ps| ==> ps[k] < |jobs|
    requires p < |jobs|
    ensures Pick(jobs, ps + [p]) == Pick(jobs, ps) + [jobs[p]]
  {
  }

  /** What the collection loop holds after the first `k` completions. */
  predicate CollectedUpTo(done: seq<Task>, jobs: seq<Task>, results: seq<bool>, order: seq<nat>, k: nat,
                          succeeded: seq<Task>, failed: seq<Task>, reports: seq<nat>)
  {
    && k <= |order|
    && |results| == |jobs|
    && (forall j :: 0 <= j < |order| ==> order[j] < |results|)
    && succeeded == done + Pick(jobs, Finished(results, order[..k], true))
    && failed == Pick(jobs, Finished(results, order[..k], false))
    && |reports| == |succeeded| - |done|
    && (forall j :: 0 <= j < |reports| ==> reports[j] == |done| + j + 1)
  }

  lemma CollectNext(done: seq<Task>, jobs: seq<Task>, results: seq<bool>, order: seq<nat>, k: nat,
                    succeeded: seq<Task>, failed: seq<Task>, reports: seq<nat>)
    requires k < |order|
    requires CollectedUpTo(done, jobs, results, order, k, succeeded, failed, reports)
    ensures var p := order[k];
            if results[p] then
              CollectedUpTo(done, jobs, results, order, k + 1, succeeded + [jobs[p]], failed, reports + [|succeeded| + 1])
            else
              CollectedUpTo(done, jobs, results, order, k + 1, succeeded, failed + [jobs[p]], reports)
  {
    var p := order[k];
    FinishedSnoc(results, order, k, true);
    FinishedSnoc(results, order, k, false);
    var won := Finished(results, order[..k], true);
    var lost := Finished(results, order[..k], false);
    if results[p] {
      PickSnoc(jobs, won, p);
      assert won + [p] == Finished(results, order[..k + 1], true);
      assert done + (Pick(jobs, won) + [jobs[p]]) == done + Pick(jobs, won) + [jobs[p]];
      assert lost + [] == lost;
    } else {
      PickSnoc(jobs, lost, p);
      assert won + [] == won;
    }
  }
}
