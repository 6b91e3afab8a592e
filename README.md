# A verified model of the xxxhub downloader core

`xxxhub_downloader.py` is a Tkinter tool that downloads an HLS video. Given a
playlist (`.m3u8`) URL, or the URL of one of its segments, it works out the
playlist URL, fetches the playlist and then every `.ts` segment, resuming
partial files. It can continue an interrupted download in the same
directory. Afterwards it hands the segments, in order, to ffmpeg to make an
`.mp4`.

This project models the deterministic core of that script in Dafny and
proves properties of it. The network is replaced by inputs:

- the HEAD probe of candidate playlist URLs is a predicate `accepts`;
- the answers to the GET requests of one run are a script of replies
  (a status and a body, or a raised exception). Past the end of the
  script every request raises.

The modules follow the parts of the script:

| module | file | what it covers |
|---|---|---|
| `Wrappers` | `wrappers.dfy` | `Option` |
| `Text` | `text.dfy` | the string operations the script uses: `split`, `join`, `rstrip`, `strip`, `isdigit`, `int()`, `str()`, `{:04d}` |
| `Urls` | `urls.dfy` | `urlparse` of an `http`/`https` URL |
| `Locator` | `locator.dfy` | `normalize_m3u8_url` |
| `Http` | `http.dfy` | requests, header sets, replies, the Referer derived from the URL path |
| `PlaylistFetch` | `playlist_fetch.dfy` | `download_m3u8`: the 403 ladder and the status classification |
| `SegmentFetch` | `segment_fetch.dfy` | `download_single_ts`: the resume loop, the whole-file loop and its 403 ladder, with the file as a byte sequence |
| `Orchestrator` | `orchestrator.dfy` | `download_ts_files`: playlist parsing, the resume filter, the worker count, the outcome accounting |
| `Ordering` | `ordering.dfy` | `merge_to_mp4`: the sequence key, the stable sort and the ffmpeg concat list |
| `Workspace` | `workspace.dfy` | `suggest_directory_name`, the unique directory loop, the settings dialogs and the chunk size |

Where the script works step by step, the model does too:

- the parse, filter and `as_completed` loops of `download_ts_files`;
- the retry loops of `download_single_ts`, which write the file chunk by chunk;
- the in-place sort of the segment names;
- the line-by-line write of the concat list;
- the unique-path `while` loop.

Each of these is a `method` with a loop. The parse, filter, collection,
sort and list-writing loops are proved equal to a specification function.
The retry loops of `download_single_ts` and the unique-path loop are
proved against postconditions that state what the source promises. The
string building and the classifications are functions, with lemmas about
them.

Two places where the code as written does not do what it evidently means
are recorded under "Findings". The rest of the model uses the corrected
behaviour.

## Model

| member | source | states |
|---|---|---|
| `Locator.Candidates` | xxxhub_downloader.py:68-85 | four candidate playlist URLs (the grandparent `index.m3u8` first) when the path contains `seg-` or `segment-`, three otherwise |
| `Locator.FirstAccepted` | xxxhub_downloader.py:88-101 | the chosen candidate is accepted by the probe and no earlier one is; nothing is chosen exactly when the probe accepts none |
| `Locator.Fallback` | xxxhub_downloader.py:103-115 | the guess made when no candidate is accepted stays on the URL's origin and, without a query, names `index.m3u8` |
| `Locator.FromSegment` | xxxhub_downloader.py:88-117 | the playlist guessed for a segment is always one of the candidates; it is accepted by the probe unless the probe accepts none |
| `Locator.Normalize` | xxxhub_downloader.py:53-125 | no result exactly when the URL does not start with `http://` or `https://`; the URL itself when its path contains `.m3u8`; for a URL whose path has neither `.m3u8` nor `.ts` and that has no query, the URL without trailing `/` followed by `/index.m3u8` |
| `Locator.NormalizeAsWritten` | xxxhub_downloader.py:53-125 | as written: no result exactly for a URL that is not http(s); it agrees with the corrected `Normalize` except for a directory URL that carries a query |
| `Locator.SegmentUrlProbing` | xxxhub_downloader.py:68-117 | for a `.ts` path: the first accepted candidate in probe order, or the fallback guess when none is accepted |
| `Locator.FromSegmentProbing` | xxxhub_downloader.py:88-117 | the guess for a segment URL is the first accepted candidate in probe order, or the fallback when none is accepted |
| `Locator.FallbackIsFirstCandidate` | xxxhub_downloader.py:103-115 | the fallback guess equals the first candidate |
| `Locator.SegmentGuessKeepsQuery` | xxxhub_downloader.py:88-117 | with a non-empty query, every URL guessed for a segment ends with `?query` |
| `Locator.QueryPropagated` | xxxhub_downloader.py:88-125 | whenever the input has a query and no `.m3u8` path, the result ends with `?query` |
| `Locator.IndexPathShape` | xxxhub_downloader.py:118-125 | appending `/index.m3u8` to a prefix of a path gives a rooted path with no `?`, `#` or `;` in its last piece |
| `Locator.IndexUrlParses` | xxxhub_downloader.py:118-123 | corrected directory case: the URL the correction builds parses back to the same scheme, netloc and query, with path `/index.m3u8` under the old path |
| `Locator.DirectoryPlaylistKeepsQuery` | xxxhub_downloader.py:118-123 | corrected directory case: the result parses to the old path plus `/index.m3u8`, with the query kept as the query |
| `Locator.DirectoryAsWrittenAppends` | xxxhub_downloader.py:120-123 | as written, a directory URL with a query and no trailing `/` becomes the whole URL + `/index.m3u8?query` |
| `Locator.DirectoryQueryMisplaced` | xxxhub_downloader.py:120-123 | as written, that URL parses with the old path unchanged and the query `query/index.m3u8?query` |
| `Http.PathReferer` | xxxhub_downloader.py:160-165 | the path-derived Referer starts with `scheme://netloc` and ends with `/` |
| `Http.RefererThenName` | xxxhub_downloader.py:160-165 | origin + path is the Referer followed by the last path piece, which has no `/` |
| `Http.PathRefererIsDirectory` | xxxhub_downloader.py:160-165 | the URL itself starts with its path-derived Referer |
| `PlaylistFetch.Judge` | xxxhub_downloader.py:176-228 | 200 saves the body (valid-looking exactly when it holds `#EXTM3U` or `.ts`); 403 forbidden; 410 expired; any other status rejected with that status; an exception fails |
| `PlaylistFetch.FetchPlaylist` | xxxhub_downloader.py:127-228 | 1 to 3 GETs of the URL, the first with browser headers; one GET exactly when the first answer is not 403; the second has minimal headers; a third exactly when both answers were 403 and the path has more than two pieces, with the path Referer; the outcome judges the last answer |
| `SegmentFetch.LadderReferer` | xxxhub_downloader.py:302-312 | the Referer of the third rung is the origin plus the path's directory when the path has more than one `/`, and the origin plus `/` otherwise; either way it starts with the origin and ends with `/` |
| `SegmentFetch.WriteChunks` | xxxhub_downloader.py:265-268 | writing the body chunk by chunk after `prefix` leaves exactly `prefix + body` |
| `SegmentFetch.Resume` | xxxhub_downloader.py:253-279 | at most `max_retries` ranged requests at the current size; earlier ones all raised; 206 appends the body to the file; another status ends the loop for a whole download; giving up exactly when every attempt raised |
| `SegmentFetch.Attempt` | xxxhub_downloader.py:284-332 | one attempt: a browser-header GET; a non-403 answer ends the attempt there. After a 403 the next GET is the minimal one, or on the last attempt the one with the `LadderReferer` Referer. After a 403 to the minimal GET the Referer GET follows, and a Referer GET is sent exactly then. A body comes only from a 200 answer, with no earlier 200 |
| `SegmentFetch.FetchWhole` | xxxhub_downloader.py:282-339 | at most 3 GETs per attempt, none ranged; fallback headers only after a 403; the ladder is climbed (`LadderClimbed`): a browser-header GET answered 403 is followed by a fallback GET, a minimal GET answered 403 by the GET with a Referer, and that Referer is always `LadderReferer`; the fallback after a browser-header 403 is the minimal GET exactly when it opens one of the first `max_retries - 1` attempts, and the Referer GET on the last (`MinimalUnlessLast`); a result is exactly the 200 body; failure after exactly `max_retries` attempts |
| `SegmentFetch.DownloadSegment` | xxxhub_downloader.py:230-339 | at most `4 * max_retries` GETs, all for the segment URL. Ranged requests come first, at the file size, and only for a non-empty file. Fallback headers are sent only after a 403, and every 403 to a browser-header or minimal GET is followed by the next rung of the ladder, whose Referer is `LadderReferer` (`LadderClimbed` from the first request); the minimal GET is skipped only on the last attempt (`MinimalUnlessLast`). True means the last answer was 206 and the body was appended, or 200 and the file is that body. If every resume attempt raises, the result is False and the file is untouched. If the `k`-th ranged request is the first answered and the answer is 206, the run ends there with True and the body appended. If the answer has any other status, the next request is the browser-header GET of the whole-file loop, and on failure the file is gone and all `max_retries` attempts were made. Without a usable file the first GET uses browser headers, and False means all `max_retries` attempts were made. False always means no whole-file GET was answered 200 |
| `Orchestrator.Lines` | xxxhub_downloader.py:394-395 | the playlist text split into lines, none holding a newline |
| `Orchestrator.Uris` | xxxhub_downloader.py:402-406 | the stripped lines that are neither blank nor `#` comments, in order |
| `Orchestrator.BaseUrl` | xxxhub_downloader.py:370-374 | the base URL starts with `scheme://netloc` and, for a playlist path, ends with `/` |
| `Orchestrator.Absolute` | xxxhub_downloader.py:409-417 | the segment URL ends with the line; a line not starting with `http` gets the playlist's origin in front |
| `Orchestrator.Resolve` | xxxhub_downloader.py:409-422 | the playlist's query is added exactly when it is non-empty and the URL has no `?`; the URL then ends with `?query` |
| `Orchestrator.ResolveShape` | xxxhub_downloader.py:409-422 | the segment URL starts with the resolved line and holds a `?` whenever the playlist URL has a query |
| `Orchestrator.AbsoluteShape` | xxxhub_downloader.py:409-417 | `http` lines pass through, `/` lines get `scheme://netloc`, others the playlist's base URL |
| `Orchestrator.FileName` | xxxhub_downloader.py:425-432 | the saved name holds neither `?` nor `/` |
| `Orchestrator.ResolveAll` | xxxhub_downloader.py:402-435 | one segment URL per URI line |
| `Orchestrator.NameAll` | xxxhub_downloader.py:402-435 | one file name per URI line |
| `Orchestrator.ParsedAt` | xxxhub_downloader.py:402-435 | the `k`-th URL and the `k`-th name are those of the `k`-th URI line |
| `Orchestrator.ParseLines` | xxxhub_downloader.py:400-435 | the parse loop collects one (URL, name) pair per URI line, in line order, each resolved and named as above |
| `Orchestrator.ParsePlaylist` | xxxhub_downloader.py:394-435 | the same, on the lines of the saved playlist text |
| `Orchestrator.Tasks` | xxxhub_downloader.py:450 | task `i` carries index `i`, the `i`-th URL and the `i`-th name |
| `Orchestrator.SelectCount` | xxxhub_downloader.py:446-461 | the tasks on disk and the pending tasks are as many as the tasks |
| `Orchestrator.SelectMembers` | xxxhub_downloader.py:446-461 | a task is selected exactly when it is one of the tasks and its presence on disk is the one asked for |
| `Orchestrator.SelectPartition` | xxxhub_downloader.py:446-461 | every task is on disk or pending, not both; the counts add up to the number of tasks |
| `Orchestrator.FilterExisting` | xxxhub_downloader.py:449-457 | the filter loop puts a task with its name or `NNNN.ts` on disk into the done list and the others into the pending list, in order |
| `Orchestrator.SegmentTasks` | xxxhub_downloader.py:398-441 | one task per URI line |
| `Orchestrator.SegmentTaskAt` | xxxhub_downloader.py:398-450 | task `i` is the `i`-th URI line of the playlist, resolved and named, with index `i` |
| `Orchestrator.Job` | xxxhub_downloader.py:492-498 | a submitted task keeps its index and URL; its file name is the original name or `NNNN.ts` |
| `Orchestrator.Jobs` | xxxhub_downloader.py:492-505 | one job per pending task, in order |
| `Orchestrator.Prepare` | xxxhub_downloader.py:389-468 | a missing playlist and a playlist with no segment are the two failures; all segments on disk returns at once; otherwise the total is the number of segments, split into done and jobs |
| `Orchestrator.AllSelected` | xxxhub_downloader.py:466-468 | when nothing is pending every task is done |
| `Orchestrator.NoneMissing` | xxxhub_downloader.py:452-457 | when every task is on disk nothing is pending |
| `Orchestrator.ResumeIsIdempotent` | xxxhub_downloader.py:446-505 | after every job's file has been written, a second run finds nothing to download |
| `Orchestrator.Workers` | xxxhub_downloader.py:474-481 | `max_threads` for fast or unknown, at most 20 for medium, at most 10 for slow, never above `max_threads` |
| `Orchestrator.Finished` | xxxhub_downloader.py:513-547 | the completed positions with a given outcome, in completion order |
| `Orchestrator.Pick` | xxxhub_downloader.py:514 | the tasks at the given positions |
| `Orchestrator.FinishedPartition` | xxxhub_downloader.py:513-547 | every completion is a success or a failure, not both |
| `Orchestrator.EveryTaskAccounted` | xxxhub_downloader.py:513-555 | with every task completing once, no failure exactly when every result is True, and each task lands in exactly one list |
| `Orchestrator.Collect` | xxxhub_downloader.py:513-555 | successes are the done tasks then the succeeded jobs in completion order; failures the failed jobs; the totals add up; each progress report is the running success count, never above the total; True exactly when every job succeeded |
| `Orchestrator.DownloadTsFiles` | xxxhub_downloader.py:364-555 | False without a saved playlist or with no URI line; True at once when every segment is on disk; otherwise True exactly when the download of every pending segment's job succeeds |
| `Orchestrator.Outcomes` | xxxhub_downloader.py:513-517 | the result of each submitted job, by position |
| `Orchestrator.Submitted` | xxxhub_downloader.py:492-513 | the submission order is a completion order: every position once |
| `Orchestrator.JobsOutcome` | xxxhub_downloader.py:492-555 | every job succeeds, by position, exactly when the outcome holds for the job of every pending task |
| `Ordering.KeyAsWritten` | xxxhub_downloader.py:746-784 | `extract_sequence_number` as written: a numbered-like name (8 characters or more, the first four digits) gets a key below 10000; a name key is the name itself |
| `Ordering.SequenceKey` | xxxhub_downloader.py:746-784 | corrected key: it differs from the key as written only for a numbered-like name whose fifth character is a digit, and then it is never smaller; a name key is the name itself |
| `Ordering.Pattern` | xxxhub_downloader.py:753-770 | the four `\.ts$` patterns all capture the same digits, the run right before `.ts` |
| `Ordering.LetterTail` | xxxhub_downloader.py:761 | `([a-zA-Z]+)(\d+)\.ts$` captures the tail digits, only in a name with a digit, and then neither `_(\d+)\.ts$` nor `[a-zA-Z]+-(\d+)\.ts$` matches |
| `Ordering.UnderscoreTail` | xxxhub_downloader.py:763 | `_(\d+)\.ts$` captures the tail digits, only in a name with a digit, and then `[a-zA-Z]+-(\d+)\.ts$` does not match |
| `Ordering.LetterUnderscoreTail` | xxxhub_downloader.py:765 | `[a-zA-Z]+_(\d+)\.ts$` captures the tail digits, only in a name with a digit, and then neither `([a-zA-Z]+)(\d+)\.ts$` nor `[a-zA-Z]+-(\d+)\.ts$` matches |
| `Ordering.LetterDashTail` | xxxhub_downloader.py:767 | `[a-zA-Z]+-(\d+)\.ts$` captures the tail digits, only in a name with a digit |
| `Ordering.FirstLiteralDigits` | xxxhub_downloader.py:755-759 | the digits after the leftmost occurrence of `seg-`, `segment` or `index` that a digit follows, as `re.findall(...)[0]` reads them |
| `Ordering.Cascade` | xxxhub_downloader.py:772-784 | the value of the first pattern, in the listed order, that matches |
| `Ordering.PatternNeedsDigit` | xxxhub_downloader.py:753-770 | no pattern matches a name without a digit |
| `Ordering.LiteralNeedsDigit` | xxxhub_downloader.py:755-759 | a literal pattern matches only where a digit follows the literal |
| `Ordering.TailNeedsDigit` | xxxhub_downloader.py:761-767 | the `\.ts$` patterns match only on a non-empty run of digits |
| `Ordering.DigitMatchesLast` | xxxhub_downloader.py:769 | the last pattern matches every name with a digit |
| `Ordering.CascadeFindsEveryDigit` | xxxhub_downloader.py:772-810 | the cascade finds a number exactly when the name has a digit, so the re-scan at 786-806 is never reached with a digit; a name is its own key exactly when it has no digit |
| `Ordering.LetterUnderscoreSubsumed` | xxxhub_downloader.py:763-765 | `[a-zA-Z]+_(\d+)\.ts$` never decides a key: `_(\d+)\.ts$` has already matched with the same digits |
| `Ordering.NumberedKeyAsWrittenBelow` | xxxhub_downloader.py:749-784 | as written, segment `i` below 10000 (`NNNN.ts`, 7 characters) gets key `i` |
| `Ordering.NumberedKeyAsWrittenTruncates` | xxxhub_downloader.py:749-750 | as written, from segment 10000 on the name's key is below 10000, not its index |
| `Ordering.NumberedKeysCollide` | xxxhub_downloader.py:749-750 | as written, `10000.ts` and `1000.ts` both get key 1000 |
| `Ordering.NumberedNameKey` | xxxhub_downloader.py:749-750 | corrected: the downloader's own name for segment `i` has key `i`, for every `i` |
| `Ordering.KeyLeOrder` | xxxhub_downloader.py:813 | the key order (numbers by value, names by code point) is a total order |
| `Ordering.SortEntriesSorts` | xxxhub_downloader.py:813 | the sorted entries are ordered by key |
| `Ordering.SortEntriesPermutes` | xxxhub_downloader.py:813 | the sorted entries are a permutation of the input |
| `Ordering.SortEntriesIsStable` | xxxhub_downloader.py:813 | the entries that share a key keep their relative order |
| `Ordering.SortByKey` | xxxhub_downloader.py:813 | corrected key (Findings, lines 749-750): the sort by `SequenceKey` keeps the number of names; `SortByKeyOrders` and `SortByKeyIsStable` give the order |
| `Ordering.SortByKeyOrders` | xxxhub_downloader.py:813 | corrected key (Findings, lines 749-750): the sorted names are a permutation of the names, with keys never decreasing |
| `Ordering.SortByKeyIsStable` | xxxhub_downloader.py:813 | corrected key (Findings, lines 749-750): names that share a key keep their relative order |
| `Ordering.InsertInPlace` | xxxhub_downloader.py:813 | moving one entry left into the sorted prefix gives the stable insertion; the rest of the array is untouched |
| `Ordering.SortInPlace` | xxxhub_downloader.py:813 | the array ends as the stable sort of its old contents |
| `Ordering.TsFiles` | xxxhub_downloader.py:740 | exactly the listed names ending in `.ts` |
| `Ordering.ClashMeansDigits` | xxxhub_downloader.py:810-813 | a number key meets a name key (and the sort raises `TypeError`) exactly when one `.ts` name has a digit and another has none |
| `Ordering.HasClash` | xxxhub_downloader.py:813 | detects that clash on the computed keys |
| `Ordering.DecorateAll` | xxxhub_downloader.py:813 | corrected key (Findings, lines 749-750): computes every name's key once, in order |
| `Ordering.NamesOf` | xxxhub_downloader.py:813-818 | the names of the sorted entries, in order |
| `Ordering.FileListText` | xxxhub_downloader.py:817-819 | the concat list has at least 8 characters per name and ends with a newline when there is a name; `FileListRoundTrip` reads it back |
| `Ordering.WriteFileList` | xxxhub_downloader.py:817-819 | writing line by line gives one `file '<name>'` line per name, in order |
| `Ordering.FileListRoundTrip` | xxxhub_downloader.py:817-819 | reading the list back gives the names in the order written, for names without a newline |
| `Ordering.PlanMerge` | xxxhub_downloader.py:740-819 | corrected key (Findings, lines 749-750): no `.ts` name stops; a key clash stops with the sort's error; otherwise the order is the stable sort of the `.ts` names and the list is written from it |
| `Workspace.Meaningful` | xxxhub_downloader.py:566-568 | the path pieces kept are the non-empty ones other than `index.m3u8`, `playlist.m3u8` and `video` |
| `Workspace.SplitExt` | xxxhub_downloader.py:574 | `os.path.splitext`: stem + extension is the name; the extension is empty or one `.` and no other dot, after a stem that is not all dots |
| `Workspace.SuggestDirectoryName` | xxxhub_downloader.py:560-581 | when the last meaningful path piece has a stem longer than two characters, the result is that stem; otherwise it is `video_<stamp>`. Any other result is the last meaningful piece without its extension. It has no `/` when the stamp has none |
| `Workspace.Candidate` | xxxhub_downloader.py:615-619 | every candidate path starts with the original, and only candidate 0 is the original itself |
| `Workspace.CandidatesDiffer` | xxxhub_downloader.py:615-619 | `original`, `original_1`, `original_2`, ... are pairwise different |
| `Workspace.UniquePath` | xxxhub_downloader.py:612-619 | the loop ends, on a path that does not exist, the first of the candidates in order that does not |
| `Workspace.Apply` | xxxhub_downloader.py:1029-1110 | a dialog saves a value only when it is a number in range (threads 1-20, chunk 256-4096 KB, timeout 5-30 s), changing only that setting; a toggle flips its flag and changes nothing else |
| `Workspace.ApplyKeepsRange` | xxxhub_downloader.py:1032-1087 | a dialog answer keeps in-range settings in range |
| `Workspace.EditsKeepRange` | xxxhub_downloader.py:958-1087 | from the defaults, no sequence of dialog answers takes a setting out of range |
| `Workspace.ChunkBytes` | xxxhub_downloader.py:233 | the chunk in bytes is the KB setting times 1024; 256 KiB to 4 MiB for in-range settings |
| `Workspace.WorkersWithinRange` | xxxhub_downloader.py:474-481 | with in-range settings the pool has 1 to 20 workers, whatever the tier |

## Left out

- The Tkinter interface is not modelled: widgets, dialogs, message boxes, progress percentages and `root.after`. The settings dialogs keep only their range checks and updates.
- ffmpeg is not modelled: the availability check, the merge subprocess, the overwrite prompt for `output.mp4` and `open_file`. These are external processes.
- `requests` is replaced by the probe predicate and the reply script: the session, the adapter retry policy, headers beyond the set chosen, and timeouts.
- The thread pool is not modelled. It becomes per-job results plus an arbitrary completion order.
- The download thread and `time.sleep` back-offs are not modelled.
- `check_network_speed` is not modelled; the tier is an input.
- The speed readout (wall-clock floats, file sizes) is not modelled.
- The playlist is saved as the 200 body. The UTF-8 / binary rewrite dance at lines 193-213 is not modelled (Python codec and file-system behaviour).
- An error removing an existing `playlist.m3u8` (lines 184-190) is not modelled.
- Exceptions raised mid-stream while writing a chunk are not modelled. A request either answers or raises before any byte is written.
- The catch-all `except` blocks around the whole functions are not modelled.
- The directory listing and the existence tests are snapshots (a `set`), taken once.
- `settings.json` load and save are not modelled. Loaded values are not range-checked by the script, so `EditsKeepRange` starts from the defaults.
- The current time is not modelled; `stamp` stands for its `%Y%m%d_%H%M%S` rendering.
- `urlparse` is modelled for `http`/`https` URLs only. Its stripping of tabs and newlines and its handling of other schemes are left out (the script rejects other schemes first).
- The methods and functions that need `urlparse(url)` take its result `u` as a parameter. The lemmas that tie `u` to the URL state `u == ParseUrl(url)`.
- Characters are compared as code points. `str.strip`, `isdigit` and `isalpha` are modelled on ASCII whitespace, digits and letters.
- The playlist is read with universal newlines, so `\r\n` and `\r` end a line like `\n`. The model maps `\r` to `\n` before splitting. A `\r\n` then leaves an extra blank line, which the parse skips like any blank line.
- The concat list does not escape a `'` inside a name, and neither does the model. ffmpeg would misread such a name, and `FileListRoundTrip` reads back with a plain unquote.
- `SegmentFetch.FetchWhole`: the attempt count is stated exactly only when no body was obtained. On success the bound is the request count, at most `3 * max_retries`.
- `Orchestrator.Workers`: the tier string `check_network_speed` returns is taken as the `Tier` datatype. The model does not check that `max_threads` is positive; `Workspace.WorkersWithinRange` shows that it is for in-range settings.
- `Workspace.SuggestDirectoryName`: `os.path.splitext` is modelled on a single path piece, which is all the function passes it.
- `Orchestrator.DownloadTsFiles`: the jobs are collected in submission order. `Orchestrator.Collect` states the outcome for every completion order, and the result does not depend on it.
- `Workspace.UniquePath`: paths are joined as strings. `os.path.join(save_path, name)` is taken as given.

## Findings

| source | as written | input that shows it | evidently intended | confidence | as-written member | corrected member |
|---|---|---|---|---|---|---|
| xxxhub_downloader.py:120-123 | for a URL that names neither a playlist nor a segment, `url.rstrip('/')` keeps the query, so `/index.m3u8?query` is appended after the old query | `http://h/live?t=1` becomes `http://h/live?t=1/index.m3u8?t=1`: path `/live`, query `t=1/index.m3u8?t=1` | `http://h/live/index.m3u8?t=1` (the comment says the query is kept) | not executed | `Locator.DirectoryQueryMisplaced` | `Locator.DirectoryPlaylistKeepsQuery` |
| xxxhub_downloader.py:749-750 | a name of 8 or more characters starting with four digits gets `int(name[:4])` | the downloader names segment 10000 `10000.ts`, key 1000, the same as `1000.ts`, so segments from 10000 on are merged out of order | the key is the whole leading run of digits, the segment's index | not executed | `Ordering.NumberedKeysCollide` | `Ordering.NumberedNameKey` |
