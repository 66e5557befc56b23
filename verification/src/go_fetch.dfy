/**
 * version/go_fetch.py after the download: the releases of go.dev's JSON
 * feed sorted newest first by their integer version tuple; the first is the
 * latest, the second the stable one, and the versions are grouped by minor
 * branch, three per branch.
 */
module GoFetch {
  import opened Wrappers
  import opened Json
  import opened Text
  import opened SortKey
  import opened Legacy

  const Url: string := "https://go.dev/dl/?mode=json"

  /**
   * One decoded release. "stable" and "kind" are given as their `.get`
   * defaults (`true` and "") when missing; `files` as its decoded dicts.
   */
  datatype Release = Release(version: string, stable: Json, kind: Json, files: seq<map<string, Json>>)

  /** `version.lstrip("go")`: every leading 'g' and 'o' goes. */
  function Stripped(version: string): string { LStrip(version, {'g', 'o'}) }

  /** `version_sort_key` */
  function VersionSortKey(r: Release): (k: Key)
    ensures k == IntTupleKey(Stripped(r.version))
  {
    IntTupleKey(Stripped(r.version))
  }

  /** `releases.sort(key=version_sort_key, reverse=True)` */
  function Ranked(releases: seq<Release>): seq<Release>
  {
    SortBy(releases, VersionSortKey, true)
  }

  /** The stripped versions of a list of releases, in its order. */
  function Versions(releases: seq<Release>): (vs: seq<string>)
    ensures |vs| == |releases|
    ensures forall i :: 0 <= i < |vs| ==> vs[i] == Stripped(releases[i].version)
  {
    seq(|releases|, i requires 0 <= i < |releases| => Stripped(releases[i].version))
  }

  /** A release as stored under "latest_info" / "stable_info" (without "available_platforms"). */
  function ReleaseJson(r: Release, stable: Json): Json
  {
    var sample := PyPrefix(r.files, 3);
    JObj(map["version" := JStr(Stripped(r.version)), "stable" := stable, "kind" := r.kind,
             "files_count" := JNum(|r.files|),
             "files_sample" := JArr(seq(|sample|, i requires 0 <= i < |sample| => Get(sample[i], "filename")))])
  }

  // ------------------------------------------------------- minor branches

  /** `".".join(version.split(".")[:2])` */
  function Minor(version: string): string
  {
    Join(PyPrefix(Split(version, '.'), 2), ".")
  }

  /** The versions of branch `m`, in order. */
  function OfMinor(vs: seq<string>, m: string): (r: seq<string>)
    ensures |r| <= |vs|
    ensures forall k :: 0 <= k < |r| ==> r[k] in vs && Minor(r[k]) == m
  {
    if vs == [] then []
    else OfMinor(vs[..|vs| - 1], m) + (if Minor(vs[|vs| - 1]) == m then [vs[|vs| - 1]] else [])
  }

  /** The branches the versions fall into. */
  function MinorsOf(vs: seq<string>): set<string>
  {
    set v | v in vs :: Minor(v)
  }

  /** `versions_by_minor` once filled: every branch of the versions, with its versions in order. */
  function Grouped(vs: seq<string>): (g: map<string, seq<string>>)
    ensures g.Keys == MinorsOf(vs)
    ensures forall m :: m in g ==> g[m] == OfMinor(vs, m)
  {
    map m | m in MinorsOf(vs) :: OfMinor(vs, m)
  }

  /** The grouping loop: each version appended to its branch's list, in order. */
  method GroupByMinor(vs: seq<string>) returns (groups: map<string, seq<string>>)
    ensures groups == Grouped(vs)
  {
    groups := map[];
    var i := 0;
    while i < |vs|
      invariant 0 <= i <= |vs|
      invariant groups.Keys == MinorsOf(vs[..i])
      invariant forall m :: m in groups ==> groups[m] == OfMinor(vs[..i], m)
    {
      GroupStep(vs, i, groups);
      var minor := Minor(vs[i]);
      if minor !in groups {
        groups := groups[minor := []];
      }
      groups := groups[minor := groups[minor] + [vs[i]]];
      i := i + 1;
    }
    assert vs[..|vs|] == vs;
    assert groups.Keys == Grouped(vs).Keys;
  }

  /** One turn of the grouping loop. */
  lemma GroupStep(vs: seq<string>, i: nat, groups: map<string, seq<string>>)
    requires i < |vs|
    requires groups.Keys == MinorsOf(vs[..i])
    requires forall m :: m in groups ==> groups[m] == OfMinor(vs[..i], m)
    ensures var minor := Minor(vs[i]);
      var list := if minor in groups then groups[minor] else [];
      var after := groups[minor := list + [vs[i]]];
      && after.Keys == MinorsOf(vs[..i + 1])
      && forall m :: m in after ==> after[m] == OfMinor(vs[..i + 1], m)
  {
    var prefix := vs[..i + 1];
    assert prefix[..i] == vs[..i];
    assert prefix == vs[..i] + [vs[i]];
    var minor := Minor(vs[i]);
    OfMinorNonEmpty(vs[..i], minor);
    forall m | m !in groups && m != minor
      ensures m !in MinorsOf(prefix)
    {
    }
  }

  /** A branch with versions is one of the versions' branches. */
  lemma OfMinorNonEmpty(vs: seq<string>, m: string)
    ensures OfMinor(vs, m) != [] ==> m in MinorsOf(vs)
  {
    if OfMinor(vs, m) != [] {
      var x := OfMinor(vs, m)[0];
      assert x in vs && Minor(x) == m;
    }
  }

  /** `{minor: versions[:3] for minor, versions in versions_by_minor.items()}` */
  function Branches(groups: map<string, seq<string>>): (b: map<string, seq<string>>)
    ensures b.Keys == groups.Keys
    ensures forall m :: m in b ==> b[m] == PyPrefix(groups[m], 3)
  {
    map m | m in groups :: PyPrefix(groups[m], 3)
  }

  function BranchesJson(b: map<string, seq<string>>): Json
  {
    JObj(map m | m in b :: StrList(b[m]))
  }

  /** Versions in non-increasing key order. */
  predicate Descending(vs: seq<string>)
  {
    forall i, j :: 0 <= i < j < |vs| ==> !Lt(IntTupleKey(vs[i]), IntTupleKey(vs[j]))
  }

  /** Picking a branch out of descending versions keeps them descending. */
  lemma {:induction false} OfMinorDescending(vs: seq<string>, m: string)
    requires Descending(vs)
    ensures Descending(OfMinor(vs, m))
  {
    if vs != [] {
      var init := vs[..|vs| - 1];
      var last := vs[|vs| - 1];
      assert Descending(init);
      OfMinorDescending(init, m);
      var r := OfMinor(vs, m);
      var front := OfMinor(init, m);
      forall i, j | 0 <= i < j < |r|
        ensures !Lt(IntTupleKey(r[i]), IntTupleKey(r[j]))
      {
        if j >= |front| {
          assert r[j] == last;
          assert r[i] == front[i] && front[i] in init;
          var k :| 0 <= k < |init| && init[k] == front[i];
          assert vs[k] == r[i] && vs[|vs| - 1] == last;
        }
      }
    }
  }

  /**
   * The branches: one per minor version of the feed; each holds the first
   * three (or fewer) versions of that minor, in the descending order.
   */
  lemma BranchesShape(releases: seq<Release>)
    ensures var vs := Versions(Ranked(releases));
      var b := Branches(Grouped(vs));
      && b.Keys == MinorsOf(vs)
      && forall m :: m in b ==> BranchOf(b[m], vs, m)
  {
    var vs := Versions(Ranked(releases));
    assert Descending(vs);
    var b := Branches(Grouped(vs));
    forall m | m in b
      ensures BranchOf(b[m], vs, m)
    {
      BranchShape(vs, m);
    }
  }

  /** What a branch holds: the first one to three versions of minor `m`, in descending order. */
  predicate BranchOf(branch: seq<string>, vs: seq<string>, m: string)
  {
    && 0 < |branch| <= 3 && |branch| <= |OfMinor(vs, m)| && branch == OfMinor(vs, m)[..|branch|]
    && (forall k :: 0 <= k < |branch| ==> Minor(branch[k]) == m && branch[k] in vs)
    && Descending(branch)
  }

  lemma BranchShape(vs: seq<string>, m: string)
    requires Descending(vs) && m in MinorsOf(vs)
    ensures BranchOf(PyPrefix(OfMinor(vs, m), 3), vs, m)
  {
    var v :| v in vs && Minor(v) == m;
    OfMinorMember(vs, m, v);
    OfMinorDescending(vs, m);
  }

  lemma {:induction false} OfMinorMember(vs: seq<string>, m: string, v: string)
    requires v in vs && Minor(v) == m
    ensures v in OfMinor(vs, m)
  {
    var init := vs[..|vs| - 1];
    if v != vs[|vs| - 1] {
      assert vs == init + [vs[|vs| - 1]];
      OfMinorMember(init, m, v);
    }
  }

  // ------------------------------------------------------------ selection

  /** The latest: present exactly when the feed is not empty, and then a release with the greatest key. */
  ghost predicate LatestPicked(info: LegacyInfo, releases: seq<Release>)
  {
    && (info.latest.Some? <==> releases != [])
    && (info.latest.Some? ==>
          exists r :: r in releases && info.latest.value == Stripped(r.version)
                      && (forall x :: x in releases ==> !Lt(VersionSortKey(r), VersionSortKey(x)))
                      && Get(info.details, "latest_info") == ReleaseJson(r, r.stable))
  }

  /**
   * The stable: present exactly when there are two releases or more, and
   * then the second in descending order: no release other than the latest
   * has a greater key.
   */
  ghost predicate StablePicked(info: LegacyInfo, releases: seq<Release>)
  {
    && (info.stable.Some? <==> |releases| > 1)
    && (info.stable.Some? ==>
          exists top, r :: top in releases && r in multiset(releases) - multiset{top}
                      && info.stable.value == Stripped(r.version)
                      && (forall x :: x in releases ==> !Lt(VersionSortKey(top), VersionSortKey(x)))
                      && (forall x :: x in multiset(releases) - multiset{top} ==> !Lt(VersionSortKey(r), VersionSortKey(x)))
                      && Get(info.details, "stable_info") == ReleaseJson(r, JBool(true)))
  }

  /** "versions": the count of releases and the first five versions. */
  function HistoryJson(releases: seq<Release>): Json
  {
    var all := Versions(PyPrefix(Ranked(releases), 5));
    JObj(map["total_count" := JNum(|releases|), "recent" := JObj(map["all" := StrList(all)])])
  }

  /**
   * `fetch_go_versions` once the feed is decoded. An empty feed sets
   * nothing; a failed download leaves the error and its type.
   */
  method FetchGoVersions(response: Response<seq<Release>>) returns (info: LegacyInfo)
    ensures response.Failed? ==> info == Failure(response.msg, response.errorType)
    ensures response.Fetched? && response.body == [] ==> info == LegacyInfo(None, None, Source(Url, response.fetchTime))
    ensures response.Fetched? ==>
      && Get(info.details, "source") == JStr(Url) && Get(info.details, "fetch_time") == response.fetchTime
      && LatestPicked(info, response.body) && StablePicked(info, response.body)
    ensures response.Fetched? && response.body != [] ==>
      && Get(info.details, "versions") == HistoryJson(response.body)
      && Get(info.details, "version_branches") ==
           BranchesJson(Branches(Grouped(Versions(Ranked(response.body)))))
  {
    if response.Failed? {
      return Failure(response.msg, response.errorType);
    }
    if response.body == [] {
      return LegacyInfo(None, None, Source(Url, response.fetchTime));
    }
    info := Select(response.body, response.fetchTime);
  }

  method Select(releases: seq<Release>, fetchTime: Json) returns (info: LegacyInfo)
    requires releases != []
    ensures Get(info.details, "source") == JStr(Url) && Get(info.details, "fetch_time") == fetchTime
    ensures LatestPicked(info, releases) && StablePicked(info, releases)
    ensures Get(info.details, "versions") == HistoryJson(releases)
    ensures Get(info.details, "version_branches") == BranchesJson(Branches(Grouped(Versions(Ranked(releases)))))
  {
    var sorted := SortBy(releases, VersionSortKey, true);
    var latest := sorted[0];
    var stable := if |sorted| > 1 then Some(sorted[1]) else None;
    var groups := GroupByMinor(Versions(sorted));
    var stableInfo := if stable.Some? then Some(ReleaseJson(stable.value, JBool(true))) else None;
    var details := Details(fetchTime, ReleaseJson(latest, latest.stable), stableInfo, HistoryJson(releases),
                           BranchesJson(Branches(groups)));
    info := LegacyInfo(Some(Stripped(latest.version)), if stable.Some? then Some(Stripped(stable.value.version)) else None,
                       details);
    Picked(info, releases);
  }

  /** The picks of the sorted feed. */
  lemma Picked(info: LegacyInfo, releases: seq<Release>)
    requires releases != []
    requires var r := Ranked(releases);
      && info.latest == Some(Stripped(r[0].version))
      && Get(info.details, "latest_info") == ReleaseJson(r[0], r[0].stable)
      && (info.stable.Some? <==> |r| > 1)
      && (|r| > 1 ==> info.stable.value == Stripped(r[1].version)
                      && Get(info.details, "stable_info") == ReleaseJson(r[1], JBool(true)))
    ensures LatestPicked(info, releases) && StablePicked(info, releases)
  {
    var r := Ranked(releases);
    RankedPicks(releases);
    assert |r| == |releases|;
    LatestWitness(info, releases, r[0]);
    StableWitness(info, releases, r[0], if |r| > 1 then r[1] else r[0]);
  }

  lemma LatestWitness(info: LegacyInfo, releases: seq<Release>, top: Release)
    requires info.latest == Some(Stripped(top.version)) && top in releases
    requires forall x :: x in releases ==> !Lt(VersionSortKey(top), VersionSortKey(x))
    requires Get(info.details, "latest_info") == ReleaseJson(top, top.stable)
    ensures LatestPicked(info, releases)
  {
  }

  lemma StableWitness(info: LegacyInfo, releases: seq<Release>, top: Release, second: Release)
    requires top in releases && forall x :: x in releases ==> !Lt(VersionSortKey(top), VersionSortKey(x))
    requires info.stable.Some? <==> |releases| > 1
    requires info.stable.Some? ==>
      && second in multiset(releases) - multiset{top}
      && info.stable.value == Stripped(second.version)
      && (forall x :: x in multiset(releases) - multiset{top} ==> !Lt(VersionSortKey(second), VersionSortKey(x)))
      && Get(info.details, "stable_info") == ReleaseJson(second, JBool(true))
    ensures StablePicked(info, releases)
  {
  }

  /** The details as the assignments leave them, given the stored forms of the picks. */
  function Details(fetchTime: Json, latestInfo: Json, stableInfo: Option<Json>, history: Json, branches: Json)
    : (d: map<string, Json>)
    ensures Get(d, "source") == JStr(Url) && Get(d, "fetch_time") == fetchTime
    ensures Get(d, "latest_info") == latestInfo
    ensures stableInfo.Some? ==> Get(d, "stable_info") == stableInfo.value
    ensures Get(d, "versions") == history && Get(d, "version_branches") == branches
  {
    DetailKeysDistinct();
    var withLatest := Source(Url, fetchTime)["latest_info" := latestInfo];
    var withStable := if stableInfo.Some? then withLatest["stable_info" := stableInfo.value] else withLatest;
    withStable["versions" := history]["version_branches" := branches]
  }

  /** The first two of the sorted feed are the latest and the second. */
  lemma RankedPicks(releases: seq<Release>)
    requires releases != []
    ensures var r := Ranked(releases);
      && r[0] in releases && (forall x :: x in releases ==> !Lt(VersionSortKey(r[0]), VersionSortKey(x)))
      && (|r| > 1 ==>
            && r[1] in multiset(releases) - multiset{r[0]}
            && forall x :: x in multiset(releases) - multiset{r[0]} ==> !Lt(VersionSortKey(r[1]), VersionSortKey(x)))
  {
    SortedTop(releases, VersionSortKey);
    if |releases| > 1 {
      SortedSecond(releases, VersionSortKey);
    }
  }
}
