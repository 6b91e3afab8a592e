/**
 * Where a download goes and with which settings: the directory name
 * suggested for a URL (`suggest_directory_name`), the loop that makes a
 * new download directory unique, the three range-checked settings
 * dialogs, and the chunk size in bytes used by the segment download.
 */
module Workspace {
  import opened Wrappers
  import opened Text
  import opened Urls
  import Orchestrator

  // ---------------------------------------------------------------------
  // suggest_directory_name
  // ---------------------------------------------------------------------

  /** Path pieces that say nothing about the video. */
  predicate Meaningless(p: string) {
    p == "" || p == "index.m3u8" || p == "playlist.m3u8" || p == "video"
  }

  /** The pieces kept by the filter, in path order. */
  function Meaningful(parts: seq<string>): (r: seq<string>)
    ensures forall p :: p in r <==> p in parts && !Meaningless(p)
  {
    if |parts| == 0 then []
    else
      var front := AllButLast(parts);
      assert parts == front + [Last(parts)];
      Meaningful(front) + (if Meaningless(Last(parts)) then [] else [Last(parts)])
  }

  /** The index of the last `.` in `p`, if any. */
  function LastDot(p: string): (r: Option<nat>)
    ensures r.None? <==> '.' !in p
    ensures r.Some? ==> r.value < |p| && p[r.value] == '.' && '.' !in p[r.value + 1..]
  {
    if |p| == 0 then None
    else if Last(p) == '.' then Some(|p| - 1)
    else
      var r := LastDot(AllButLast(p));
      assert p == AllButLast(p) + [Last(p)];
      if r.Some? then
        assert p[r.value + 1..] == AllButLast(p)[r.value + 1..] + [Last(p)];
        r
      else r
  }

  predicate AllDots(s: string) {
    forall k :: 0 <= k < |s| ==> s[k] == '.'
  }

  /**
   * `os.path.splitext` on a name without `/`: the extension starts at the
   * last dot, unless only dots come before it (a hidden file has no extension).
   */
  function SplitExt(p: string): (r: (string, string))
    ensures r.0 + r.1 == p
    ensures r.1 == "" || (r.1[0] == '.' && '.' !in r.1[1..] && !AllDots(r.0))
  {
    match LastDot(p)
    case None => (p, "")
    case Some(d) =>
      if AllDots(p[..d]) then (p, "")
      else
        assert p == p[..d] + p[d..];
        assert p[d..][1..] == p[d + 1..];
        (p[..d], p[d..])
  }

  /**
   * The suggested name of a new download directory for the URL whose
   * parsed form is `u`; `stamp` stands for the `%Y%m%d_%H%M%S` rendering
   * of the current time. The last meaningful path piece without its
   * extension is used when it is longer than two characters.
   */
  function SuggestDirectoryName(u: Url, stamp: string): (r: string)
    ensures r == "video_" + stamp ||
            (|r| > 2 && exists p :: p in Split(u.path, '/') && !Meaningless(p) && StartsWith(p, r))
    ensures var kept := Meaningful(Split(u.path, '/'));
            |kept| > 0 && |SplitExt(Last(kept)).0| > 2 ==> r == SplitExt(Last(kept)).0
    ensures var kept := Meaningful(Split(u.path, '/'));
            r != "video_" + stamp ==> |kept| > 0 && r + SplitExt(Last(kept)).1 == Last(kept)
    ensures var kept := Meaningful(Split(u.path, '/'));
            !(|kept| > 0 && |SplitExt(Last(kept)).0| > 2) ==> r == "video_" + stamp
    ensures '/' !in stamp ==> '/' !in r
    ensures (forall p :: p in Split(u.path, '/') ==> Meaningless(p)) ==> r == "video_" + stamp
  {
    var kept := Meaningful(Split(u.path, '/'));
    if |kept| > 0 && |SplitExt(Last(kept)).0| > 2 then
      var name := SplitExt(Last(kept)).0;
      assert Last(kept) in kept;
      assert Last(kept) == name + SplitExt(Last(kept)).1;
      assert '/' !in Last(kept) by {
        var parts := Split(u.path, '/');
        var i :| 0 <= i < |parts| && parts[i] == Last(kept);
      }
      assert StartsWith(Last(kept), name) by {
        assert (name + SplitExt(Last(kept)).1)[..|name|] == name;
      }
      name
    else
      "video_" + stamp
  }

  // ---------------------------------------------------------------------
  // The unique-path loop
  // ---------------------------------------------------------------------

  /** The path tried after `n` clashes: the original, then `original_1`, `original_2`, ... */
  function Candidate(original: string, n: nat): (r: string)
    ensures StartsWith(r, original)
    ensures n == 0 <==> r == original
  {
    if n == 0 then original else original + "_" + Decimal(n)
  }

  /** Different counters give different paths. */
  lemma CandidatesDiffer(original: string, m: nat, n: nat)
    requires m != n
    ensures Candidate(original, m) != Candidate(original, n)
  {
    if m > 0 && n > 0 {
      var a := original + "_";
      if Candidate(original, m) == Candidate(original, n) {
        assert Decimal(m) == Candidate(original, m)[|a|..];
        assert Decimal(n) == Candidate(original, n)[|a|..];
        DecimalValue(m);
        DecimalValue(n);
      }
    }
  }

  /**
   * `while os.path.exists(new_path): new_path = f"{original}_{counter}"`:
   * the first candidate that does not exist. `existing` is the finite set
   * of paths present on disk, so the loop ends.
   */
  method UniquePath(original: string, existing: set<string>) returns (path: string)
    ensures path !in existing
    ensures exists n: nat :: path == Candidate(original, n) &&
              forall m: nat :: m < n ==> Candidate(original, m) in existing
  {
    path := original;
    var counter := 1;
    ghost var tried: set<string> := {};
    while path in existing
      invariant counter >= 1
      invariant path == Candidate(original, counter - 1)
      invariant forall m: nat :: m < counter - 1 ==> Candidate(original, m) in existing
      invariant tried <= existing && |tried| == counter - 1
      invariant forall p :: p in tried ==> exists m: nat :: m < counter - 1 && p == Candidate(original, m)
      decreases |existing| - |tried|
    {
      assert path !in tried by {
        forall p | p in tried
          ensures p != path
        {
          var m: nat :| m < counter - 1 && p == Candidate(original, m);
          CandidatesDiffer(original, m, counter - 1);
        }
      }
      tried := tried + {path};
      assert |tried| <= |existing| by {
        SubsetSize(tried, existing);
      }
      path := original + "_" + Decimal(counter);
      counter := counter + 1;
    }
  }

  lemma SubsetSize(a: set<string>, b: set<string>)
    requires a <= b
    ensures |a| <= |b|
  {
    assert b == a + (b - a);
  }

  // ---------------------------------------------------------------------
  // Settings
  // ---------------------------------------------------------------------

  /**
   * The settings dictionary. `timeout` has no default entry and is read
   * with `settings.get('timeout', 15)`.
   */
  datatype Settings = Settings(
    lastDirectory: string,
    maxThreads: int,
    deleteAfterMerge: bool,
    chunkKb: int,
    showSpeed: bool,
    useOriginalNames: bool,
    timeout: Option<int>)

  const Defaults := Settings("", 10, false, 1024, true, false, None)

  /** `settings.get('timeout', 15)` */
  function Timeout(s: Settings): int {
    match s.timeout
    case Some(t) => t
    case None => 15
  }

  /** The ranges the three dialogs enforce. */
  predicate InRange(s: Settings) {
    1 <= s.maxThreads <= 20 && 256 <= s.chunkKb <= 4096 && 5 <= Timeout(s) <= 30
  }

  /**
   * One answer to a settings dialog. `None` is text that `int()` rejects;
   * `ToggleOriginalNames` and `ToggleSpeed` are the two check items.
   */
  datatype Edit =
    | ThreadCount(entered: Option<int>)
    | ChunkSize(entered: Option<int>)
    | ConnectionTimeout(entered: Option<int>)
    | ToggleOriginalNames
    | ToggleSpeed

  /** Whether the dialog saves the entered value: it must be a number within the dialog's range. */
  predicate Accepted(e: Edit) {
    match e
    case ThreadCount(v) => v.Some? && 1 <= v.value <= 20
    case ChunkSize(v) => v.Some? && 256 <= v.value <= 4096
    case ConnectionTimeout(v) => v.Some? && 5 <= v.value <= 30
    case _ => true
  }

  /** The settings after one dialog answer; a rejected value leaves them as they were. */
  function Apply(s: Settings, e: Edit): (r: Settings)
    ensures !Accepted(e) ==> r == s
    ensures r.lastDirectory == s.lastDirectory && r.deleteAfterMerge == s.deleteAfterMerge
    ensures e.ThreadCount? && Accepted(e) ==> r == s.(maxThreads := e.entered.value)
    ensures e.ChunkSize? && Accepted(e) ==> r == s.(chunkKb := e.entered.value)
    ensures e.ConnectionTimeout? && Accepted(e) ==> r == s.(timeout := Some(e.entered.value))
    ensures e.ToggleOriginalNames? ==> r == s.(useOriginalNames := !s.useOriginalNames)
    ensures e.ToggleSpeed? ==> r == s.(showSpeed := !s.showSpeed)
  {
    if !Accepted(e) then s
    else match e
      case ThreadCount(v) => s.(maxThreads := v.value)
      case ChunkSize(v) => s.(chunkKb := v.value)
      case ConnectionTimeout(v) => s.(timeout := Some(v.value))
      case ToggleOriginalNames => s.(useOriginalNames := !s.useOriginalNames)
      case ToggleSpeed => s.(showSpeed := !s.showSpeed)
  }

  /** The settings after a run of dialog answers. */
  function ApplyAll(s: Settings, edits: seq<Edit>): Settings {
    if |edits| == 0 then s else Apply(ApplyAll(s, AllButLast(edits)), Last(edits))
  }

  /** Every dialog answer keeps the settings within range. */
  lemma ApplyKeepsRange(s: Settings, e: Edit)
    requires InRange(s)
    ensures InRange(Apply(s, e))
  {
  }

  /**
   * Starting from the defaults, no sequence of dialog answers takes a
   * setting out of its range.
   */
  lemma {:induction false} EditsKeepRange(edits: seq<Edit>)
    ensures InRange(ApplyAll(Defaults, edits))
  {
    if |edits| > 0 {
      EditsKeepRange(AllButLast(edits));
      ApplyKeepsRange(ApplyAll(Defaults, AllButLast(edits)), Last(edits));
    }
  }

  /** `settings.get('chunk_size', 1024) * 1024`: the streaming chunk in bytes. */
  function ChunkBytes(s: Settings): (n: int)
    ensures InRange(s) ==> 256 * 1024 <= n <= 4096 * 1024
    ensures n % 1024 == 0 && n / 1024 == s.chunkKb
  {
    s.chunkKb * 1024
  }

  /** With settings in range the worker pool has between 1 and 20 workers, whatever the tier. */
  lemma WorkersWithinRange(s: Settings, tier: Orchestrator.Tier)
    requires InRange(s)
    ensures 1 <= Orchestrator.Workers(tier, s.maxThreads) <= 20
  {
  }
}
