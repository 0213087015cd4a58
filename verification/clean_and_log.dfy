/** The plugin that, after a successful build, deletes old build folders
    (one per build id) beyond a retention count, records the current build
    id in `latest_version.txt` and logs the public URL without the build id.
    Deleting, writing and logging are returned as values. */
module CleanAndLog {
  import opened Common
  import opened Strings
  import opened Snapshot

  // ---- Options ----

  /** The options as passed in; `""` is a missing string option. */
  datatype RawOptions = RawOptions(outputPath: string, publicUrl: string,
                                   currentBuildUuid: string, keepBuilds: Option<int>)

  datatype Options = Options(outputPath: string, publicUrl: string,
                             currentBuildUuid: string, keepBuilds: int)

  datatype Error = MissingRequiredOption

  const DefaultKeepBuilds := 5

  /** The constructor: the three string options are required; a falsy
      `keepBuilds` (absent or 0) becomes 5, any other value is kept. */
  function Construct(o: RawOptions): (r: Result<Options, Error>)
    ensures r.Err? <==> o.outputPath == "" || o.publicUrl == "" || o.currentBuildUuid == ""
    ensures r.Ok? ==> r.value.outputPath == o.outputPath && r.value.publicUrl == o.publicUrl
                      && r.value.currentBuildUuid == o.currentBuildUuid
    ensures r.Ok? ==> r.value.keepBuilds != 0
    ensures r.Ok? && (o.keepBuilds.None? || o.keepBuilds == Some(0)) ==> r.value.keepBuilds == DefaultKeepBuilds
    ensures r.Ok? && o.keepBuilds.Some? && o.keepBuilds.value != 0 ==> r.value.keepBuilds == o.keepBuilds.value
  {
    if o.outputPath == "" || o.publicUrl == "" || o.currentBuildUuid == "" then Err(MissingRequiredOption)
    else
      var keep := if o.keepBuilds.None? || o.keepBuilds.value == 0 then DefaultKeepBuilds else o.keepBuilds.value;
      Ok(Options(o.outputPath, o.publicUrl, o.currentBuildUuid, keep))
  }

  // ---- Selecting the builds to delete ----

  /** Old build folders: directories other than the current build's. */
  predicate IsCandidate(d: Dirent, current: string)
  {
    d.isDir && d.name != current
  }

  function Candidates(entries: seq<Dirent>, current: string): (r: seq<Dirent>)
    ensures forall d :: d in r <==> d in entries && IsCandidate(d, current)
    ensures |r| <= |entries|
    decreases |entries|
  {
    if |entries| == 0 then []
    else
      var rest := Candidates(entries[1..], current);
      assert forall d :: d in entries <==> d == entries[0] || d in entries[1..];
      if IsCandidate(entries[0], current) then [entries[0]] + rest else rest
  }

  predicate NewestFirst(s: seq<Dirent>)
  {
    forall i, j :: 0 <= i < j < |s| ==> s[i].mtime >= s[j].mtime
  }

  /** Inserts before the first entry that is not newer, so that entries with
      equal times keep their listing order, as the stable
      `Array.prototype.sort` does. */
  function Insert(d: Dirent, s: seq<Dirent>): (r: seq<Dirent>)
    requires NewestFirst(s)
    ensures NewestFirst(r)
    ensures multiset(r) == multiset(s) + multiset{d}
    ensures |r| == |s| + 1
    ensures r[0] == d || (|s| > 0 && r[0] == s[0])
    decreases |s|
  {
    if |s| == 0 || s[0].mtime <= d.mtime then
      PrependNewest(d, s);
      [d] + s
    else
      var rest := Insert(d, s[1..]);
      assert s == [s[0]] + s[1..];
      PrependNewest(s[0], rest);
      [s[0]] + rest
  }

  lemma PrependNewest(x: Dirent, s: seq<Dirent>)
    requires NewestFirst(s)
    requires |s| > 0 ==> s[0].mtime <= x.mtime
    ensures NewestFirst([x] + s)
  {
    var r := [x] + s;
    forall i, j | 0 <= i < j < |r|
      ensures r[i].mtime >= r[j].mtime
    {
      if i == 0 {
        assert r[j] == s[j - 1];
        assert s[j - 1].mtime <= s[0].mtime;
      } else {
        assert r[i] == s[i - 1] && r[j] == s[j - 1];
      }
    }
  }

  /** The candidates sorted by modification time, newest first. */
  function SortNewestFirst(s: seq<Dirent>): (r: seq<Dirent>)
    ensures NewestFirst(r)
    ensures multiset(r) == multiset(s)
    ensures |r| == |s|
    decreases |s|
  {
    if |s| == 0 then []
    else
      assert s == [s[0]] + s[1..];
      Insert(s[0], SortNewestFirst(s[1..]))
  }

  /** `Array.prototype.slice(start)`: a negative start counts from the end.
      The result is always a suffix; a non-negative start drops that many
      elements, and a negative one keeps that many. */
  function SliceFrom<T>(s: seq<T>, start: int): (r: seq<T>)
    ensures |r| <= |s| && r == s[|s| - |r|..]
    ensures start >= 0 ==> |r| == (if start <= |s| then |s| - start else 0)
    ensures start < 0 ==> |r| == (if -start <= |s| then -start else |s|)
  {
    if start >= 0 then (if start <= |s| then s[start..] else [])
    else if |s| + start >= 0 then s[|s| + start..] else s
  }

  /** The retention decision: the candidates kept and those deleted. */
  datatype Retention = Retention(kept: seq<Dirent>, deleted: seq<Dirent>)

  /** `cleanOldBuilds`: sort the candidates newest first, and when there are
      more than `keepBuilds - 1` of them delete the slice from
      `keepBuilds - 1` on. Nothing but an old build folder is ever deleted;
      kept and deleted together are exactly the candidates; every deleted
      folder is at most as recent as every kept one; with a positive count the
      `keepBuilds - 1` newest are kept, and a negative count is a negative
      slice start, so the `1 - keepBuilds` oldest go. */
  function PlanCleanup(entries: seq<Dirent>, current: string, keepBuilds: int): (r: Retention)
    ensures forall d :: d in r.deleted ==> d in entries && d.isDir && d.name != current
    ensures multiset(r.kept) + multiset(r.deleted) == multiset(Candidates(entries, current))
    ensures forall i, j :: 0 <= i < |r.kept| && 0 <= j < |r.deleted| ==> r.deleted[j].mtime <= r.kept[i].mtime
    ensures NewestFirst(r.kept) && NewestFirst(r.deleted)
    ensures keepBuilds >= 1 && |Candidates(entries, current)| > keepBuilds - 1 ==>
              |r.kept| == keepBuilds - 1 && |r.deleted| == |Candidates(entries, current)| - (keepBuilds - 1)
    ensures keepBuilds >= 1 && |Candidates(entries, current)| <= keepBuilds - 1 ==>
              r.deleted == [] && |r.kept| == |Candidates(entries, current)|
    ensures keepBuilds < 1 ==>
              |r.deleted| == (if |Candidates(entries, current)| < 1 - keepBuilds then |Candidates(entries, current)|
                              else 1 - keepBuilds)
  {
    var candidates := Candidates(entries, current);
    var sorted := SortNewestFirst(candidates);
    var k := KeptCount(|sorted|, keepBuilds);
    KeptCountIsSlice(sorted, keepBuilds);
    SuffixSplit(sorted, k);
    forall d | d in sorted[k..]
      ensures d in entries && d.isDir && d.name != current
    {
      assert d in multiset(sorted);
    }
    Retention(sorted[..k], sorted[k..])
  }

  /** How many of `n` sorted candidates survive: the deletion is
      `slice(keepBuilds - 1)`, taken only when `n > keepBuilds - 1`. */
  function KeptCount(n: nat, keepBuilds: int): (k: nat)
    ensures k <= n
    ensures keepBuilds >= 1 ==> k == (if n > keepBuilds - 1 then keepBuilds - 1 else n)
    ensures keepBuilds < 1 ==> n - k == (if n < 1 - keepBuilds then n else 1 - keepBuilds)
  {
    var start := keepBuilds - 1;
    if n <= start then n
    else if start >= 0 then start
    else if n + start >= 0 then n + start
    else 0
  }

  /** The kept prefix is exactly what the source's slice leaves behind. */
  lemma KeptCountIsSlice<T>(s: seq<T>, keepBuilds: int)
    ensures (if |s| > keepBuilds - 1 then SliceFrom(s, keepBuilds - 1) else [])
            == s[KeptCount(|s|, keepBuilds)..]
  {
  }

  /** Cutting a newest-first sequence gives two newest-first parts, the
      second never more recent than the first. */
  lemma SuffixSplit(s: seq<Dirent>, k: nat)
    requires NewestFirst(s)
    requires k <= |s|
    ensures NewestFirst(s[..k]) && NewestFirst(s[k..])
    ensures multiset(s[..k]) + multiset(s[k..]) == multiset(s)
    ensures forall i, j :: 0 <= i < k && 0 <= j < |s| - k ==> s[k..][j].mtime <= s[..k][i].mtime
  {
    assert s == s[..k] + s[k..];
    forall i, j | 0 <= i < k && 0 <= j < |s| - k
      ensures s[k..][j].mtime <= s[..k][i].mtime
    {
      assert s[k..][j] == s[k + j];
      assert s[..k][i] == s[i];
    }
  }

  // ---- The log line ----

  predicate AllSlashes(s: string)
  {
    |s| > 0 && forall i :: 0 <= i < |s| ==> s[i] == '/'
  }

  /** The global replace of `/<uuid>/|/+$` by `/`: scanning left to right, a
      `/<uuid>/` segment or a final run of slashes becomes one `/`. The build
      id is matched literally: what the pattern does for an id of letters,
      digits and dashes, not for one holding pattern metacharacters. */
  function ReplaceUuidSegments(s: string, uuid: string): (r: string)
    decreases |s|
  {
    if |s| == 0 then ""
    else if StartsWith(s, "/" + uuid + "/") then "/" + ReplaceUuidSegments(s[|uuid| + 2..], uuid)
    else if AllSlashes(s) then "/"
    else [s[0]] + ReplaceUuidSegments(s[1..], uuid)
  }

  /** The replace of `/\/+$/` by `''`. */
  function TrimTrailingSlashes(s: string): (r: string)
    ensures !EndsWith(r, "/")
    ensures StartsWith(s, r)
    ensures forall i :: |r| <= i < |s| ==> s[i] == '/'
    decreases |s|
  {
    if |s| > 0 && s[|s| - 1] == '/' then
      var r := TrimTrailingSlashes(s[..|s| - 1]);
      assert s[..|r|] == s[..|s| - 1][..|r|];
      r
    else s
  }

  /** `cleanPublicUrl`: the logged URL. */
  function CleanPublicUrl(publicUrl: string, uuid: string): (r: string)
    ensures !EndsWith(r, "/")
  {
    TrimTrailingSlashes(ReplaceUuidSegments(publicUrl, uuid))
  }

  /** A URL with no `/<uuid>/` segment and no trailing slash is logged as is. */
  lemma CleanPublicUrlUnchanged(url: string, uuid: string)
    requires !Contains(url, "/" + uuid + "/")
    requires !EndsWith(url, "/")
    ensures CleanPublicUrl(url, uuid) == url
  {
    ReplaceUnchanged(url, uuid);
  }

  lemma {:induction false} ReplaceUnchanged(s: string, uuid: string)
    requires !Contains(s, "/" + uuid + "/")
    requires !EndsWith(s, "/")
    ensures ReplaceUuidSegments(s, uuid) == s
    decreases |s|
  {
    if |s| > 0 {
      assert !AllSlashes(s) by {
        assert s[|s| - 1] != '/' by { assert s[|s| - 1..] == [s[|s| - 1]]; }
      }
      var tail := s[1..];
      if |tail| > 0 {
        assert tail[|tail| - 1..] == s[|s| - 1..];
      }
      ReplaceUnchanged(tail, uuid);
      assert s == [s[0]] + tail;
    }
  }

  /** The public URL of a build, `<base>/<uuid>/`, is logged as `<base>` when
      the build-id segment occurs only at its end. */
  lemma CleanPublicUrlDropsBuildSegment(base: string, uuid: string)
    requires uuid != "" && '/' !in uuid
    requires !EndsWith(base, "/")
    requires forall i :: 0 <= i < |base| ==> !StartsWith((base + "/" + uuid + "/")[i..], "/" + uuid + "/")
    ensures CleanPublicUrl(base + "/" + uuid + "/", uuid) == base
  {
    var url := base + "/" + uuid + "/";
    ReplaceDropsFinalSegment(base, uuid, 0);
    assert url[0..] == url;
    assert base[0..] == base;
    assert TrimTrailingSlashes(base + "/") == base;
  }

  lemma {:induction false} ReplaceDropsFinalSegment(base: string, uuid: string, i: nat)
    requires uuid != "" && '/' !in uuid
    requires i <= |base|
    requires forall k :: 0 <= k < |base| ==> !StartsWith((base + "/" + uuid + "/")[k..], "/" + uuid + "/")
    ensures ReplaceUuidSegments((base + "/" + uuid + "/")[i..], uuid) == base[i..] + "/"
    decreases |base| - i
  {
    var url := base + "/" + uuid + "/";
    var t := "/" + uuid + "/";
    if i == |base| {
      assert url[i..] == t;
      assert url[i..][|uuid| + 2..] == "";
    } else {
      var s := url[i..];
      assert !StartsWith(s, t);
      assert !AllSlashes(s) by {
        assert s[|s| - 2] == uuid[|uuid| - 1];
        assert uuid[|uuid| - 1] in uuid;
      }
      ReplaceDropsFinalSegment(base, uuid, i + 1);
      assert s[1..] == url[i + 1..];
      assert base[i..] == [base[i]] + base[i + 1..];
    }
  }

  // ---- The done hook ----

  /** What the done hook does: after an error-free compilation, delete the
      old builds, write `latest_version.txt` with the build id into the output
      directory and log the cleaned URL; otherwise only log an error. */
  datatype DoneOutcome =
    | Succeeded(deleted: seq<string>, latestVersionDir: string, latestVersion: string, url: string)
    | Failed

  function OnDone(o: Options, errorCount: nat, outputEntries: seq<Dirent>): (r: DoneOutcome)
    ensures r.Succeeded? <==> errorCount == 0
    ensures r.Succeeded? ==>
              && r.deleted == Names(PlanCleanup(outputEntries, o.currentBuildUuid, o.keepBuilds).deleted)
              && r.latestVersionDir == o.outputPath
              && r.latestVersion == o.currentBuildUuid
              && r.url == CleanPublicUrl(o.publicUrl, o.currentBuildUuid)
              && !EndsWith(r.url, "/")
    ensures r.Succeeded? ==> forall n :: n in r.deleted ==> n != o.currentBuildUuid
  {
    if errorCount == 0 then
      var plan := PlanCleanup(outputEntries, o.currentBuildUuid, o.keepBuilds);
      var names := Names(plan.deleted);
      assert forall n :: n in names ==> exists i :: 0 <= i < |plan.deleted| && plan.deleted[i].name == n;
      Succeeded(names, o.outputPath, o.currentBuildUuid,
                CleanPublicUrl(o.publicUrl, o.currentBuildUuid))
    else Failed
  }
}
