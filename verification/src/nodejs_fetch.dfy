/**
 * version/nodejs_fetch.py after the download: the releases of Node.js's
 * index.json sorted newest first by their integer version tuple; the first
 * is the latest, the first LTS one the stable, and the first five of each
 * are kept as recent versions.
 */
module NodejsFetch {
  import opened Wrappers
  import opened Json
  import opened Text
  import opened SortKey
  import opened Legacy
  import opened Seqs

  const Url: string := "https://nodejs.org/dist/index.json"

  /**
   * One decoded entry of index.json. A field the entry lacks is given as
   * the default its `.get` uses: `null`, and `false` for "lts".
   */
  datatype Release = Release(version: string, date: Json, lts: Json, npm: Json, v8: Json)

  /** `version.lstrip("v")` */
  function Stripped(version: string): string { LStrip(version, {'v'}) }

  /** `version_sort_key`: the integer tuple of the version without its leading 'v's, `(0, 0, 0)` if a part is not an integer. */
  function VersionSortKey(r: Release): (k: Key)
    ensures k == IntTupleKey(Stripped(r.version))
    ensures !IntParts(Stripped(r.version)) ==> k == [Num(0), Num(0), Num(0)]
  {
    IntTupleKey(Stripped(r.version))
  }

  /** `r.get("lts", False)` is truthy. */
  predicate IsLts(r: Release) { Truthy(r.lts) }

  /** `releases.sort(key=version_sort_key, reverse=True)` */
  function Ranked(releases: seq<Release>): seq<Release>
  {
    SortBy(releases, VersionSortKey, true)
  }

  /** The LTS releases of the sorted list, sorted again. */
  function LtsRanked(releases: seq<Release>): seq<Release>
  {
    SortBy(Filter(Ranked(releases), IsLts), VersionSortKey, true)
  }

  /** `[r["version"].lstrip("v") for r in releases[:5]]` */
  function Recent(releases: seq<Release>): (vs: seq<string>)
    ensures |vs| == if |releases| < 5 then |releases| else 5
    ensures forall i :: 0 <= i < |vs| ==> vs[i] == Stripped(releases[i].version)
  {
    var n := if |releases| < 5 then |releases| else 5;
    seq(n, i requires 0 <= i < n => Stripped(releases[i].version))
  }

  function LatestInfo(r: Release): Json
  {
    JObj(map["version" := JStr(Stripped(r.version)), "date" := r.date, "is_lts" := r.lts,
             "npm" := r.npm, "v8" := r.v8])
  }

  function StableInfo(r: Release): Json
  {
    JObj(map["version" := JStr(Stripped(r.version)), "date" := r.date, "lts" := r.lts,
             "npm" := r.npm, "v8" := r.v8])
  }

  function RecentJson(releases: seq<Release>): Json
  {
    JObj(map["all" := StrList(Recent(Ranked(releases))), "lts" := StrList(Recent(LtsRanked(releases)))])
  }

  /** `r` has the greatest key of all releases. */
  predicate Greatest(r: Release, releases: seq<Release>)
  {
    r in releases && forall x :: x in releases ==> !Lt(VersionSortKey(r), VersionSortKey(x))
  }

  /** `r` is LTS and has the greatest key of the LTS releases. */
  predicate GreatestLts(r: Release, releases: seq<Release>)
  {
    r in releases && IsLts(r) && forall x :: x in releases && IsLts(x) ==> !Lt(VersionSortKey(r), VersionSortKey(x))
  }

  ghost predicate LatestPicked(info: LegacyInfo, releases: seq<Release>)
  {
    && (info.latest.Some? <==> releases != [])
    && (info.latest.Some? ==>
          exists r :: Greatest(r, releases) && info.latest.value == Stripped(r.version)
                      && Get(info.details, "latest_info") == LatestInfo(r))
  }

  ghost predicate StablePicked(info: LegacyInfo, releases: seq<Release>)
  {
    && (info.stable.Some? <==> exists r :: r in releases && IsLts(r))
    && (info.stable.Some? ==>
          exists r :: GreatestLts(r, releases) && info.stable.value == Stripped(r.version)
                      && Get(info.details, "stable_info") == StableInfo(r))
  }

  /**
   * `fetch_nodejs_versions` once the feed is decoded: the latest is a
   * release with the greatest version key, the stable one an LTS release
   * with the greatest key among the LTS ones (present exactly when there is
   * one), and the recent lists are the first five of each sorted list. An
   * empty feed sets nothing; a failed download leaves the error and its type.
   */
  method FetchNodejsVersions(response: Response<seq<Release>>) returns (info: LegacyInfo)
    ensures response.Failed? ==> info == Failure(response.msg, response.errorType)
    ensures response.Fetched? ==>
      && Get(info.details, "source") == JStr(Url) && Get(info.details, "fetch_time") == response.fetchTime
      && LatestPicked(info, response.body) && StablePicked(info, response.body)
      && (response.body != [] ==> Get(info.details, "recent_versions") == RecentJson(response.body))
      && (response.body == [] ==> info == LegacyInfo(None, None, Source(Url, response.fetchTime)))
  {
    if response.Failed? {
      return Failure(response.msg, response.errorType);
    }
    if response.body == [] {
      return LegacyInfo(None, None, Source(Url, response.fetchTime));
    }
    info := Select(response.body, response.fetchTime);
  }

  /** The sort, the two picks and the recent lists of a non-empty feed. */
  method Select(releases: seq<Release>, fetchTime: Json) returns (info: LegacyInfo)
    requires releases != []
    ensures Get(info.details, "source") == JStr(Url) && Get(info.details, "fetch_time") == fetchTime
    ensures LatestPicked(info, releases) && StablePicked(info, releases)
    ensures Get(info.details, "recent_versions") == RecentJson(releases)
  {
    var sorted := SortBy(releases, VersionSortKey, true);
    LatestOfRanked(releases);
    var latest := sorted[0];
    var stable := PickStable(releases, sorted);
    var stableInfo := if stable.Some? then Some(StableInfo(stable.value)) else None;
    var details := Details(fetchTime, LatestInfo(latest), stableInfo, RecentJson(releases));
    match stable
    case None =>
      info := LegacyInfo(Some(Stripped(latest.version)), None, details);
      Picked(info, releases, latest, latest);
    case Some(r) =>
      info := LegacyInfo(Some(Stripped(latest.version)), Some(Stripped(r.version)), details);
      Picked(info, releases, latest, r);
  }

  /** The details as the assignments leave them, given the stored forms of the picks. */
  function Details(fetchTime: Json, latestInfo: Json, stableInfo: Option<Json>, recent: Json): (d: map<string, Json>)
    ensures Get(d, "source") == JStr(Url) && Get(d, "fetch_time") == fetchTime
    ensures Get(d, "latest_info") == latestInfo
    ensures stableInfo.Some? ==> Get(d, "stable_info") == stableInfo.value
    ensures Get(d, "recent_versions") == recent
  {
    DetailKeysDistinct();
    var withLatest := Source(Url, fetchTime)["latest_info" := latestInfo];
    var withStable := if stableInfo.Some? then withLatest["stable_info" := stableInfo.value] else withLatest;
    withStable["recent_versions" := recent]
  }

  /** The LTS filter, its sort and its first. */
  method PickStable(releases: seq<Release>, sorted: seq<Release>) returns (stable: Option<Release>)
    requires sorted == Ranked(releases)
    ensures stable.None? ==> forall r :: r in releases ==> !IsLts(r)
    ensures stable.Some? ==> GreatestLts(stable.value, releases)
  {
    var ltsReleases := Filter(sorted, IsLts);
    if ltsReleases == [] {
      forall r | r in releases
        ensures !IsLts(r)
      {
        assert r in multiset(sorted);
      }
      return None;
    }
    var ltsSorted := SortBy(ltsReleases, VersionSortKey, true);
    LtsOfRanked(releases);
    stable := Some(ltsSorted[0]);
  }

  /** The picks, given their witnesses. */
  lemma Picked(info: LegacyInfo, releases: seq<Release>, latest: Release, stable: Release)
    requires info.latest == Some(Stripped(latest.version)) && Greatest(latest, releases)
    requires Get(info.details, "latest_info") == LatestInfo(latest)
    requires info.stable.Some? ==> info.stable.value == Stripped(stable.version) && GreatestLts(stable, releases)
    requires info.stable.Some? ==> Get(info.details, "stable_info") == StableInfo(stable)
    requires info.stable.None? ==> forall r :: r in releases ==> !IsLts(r)
    ensures LatestPicked(info, releases) && StablePicked(info, releases)
  {
  }

  lemma LatestOfRanked(releases: seq<Release>)
    requires releases != []
    ensures Greatest(Ranked(releases)[0], releases)
  {
    SortedTop(releases, VersionSortKey);
  }

  lemma LtsOfRanked(releases: seq<Release>)
    requires Filter(Ranked(releases), IsLts) != []
    ensures GreatestLts(LtsRanked(releases)[0], releases)
  {
    var lts := Filter(Ranked(releases), IsLts);
    SortedTop(lts, VersionSortKey);
    var top := LtsRanked(releases)[0];
    assert top in lts;
    assert top in multiset(Ranked(releases));
    forall x | x in releases && IsLts(x)
      ensures !Lt(VersionSortKey(top), VersionSortKey(x))
    {
      assert x in multiset(Ranked(releases));
    }
  }

  /** The stable version's key is never above the latest's. */
  lemma StableNotAboveLatest(info: LegacyInfo, releases: seq<Release>)
    requires LatestPicked(info, releases) && StablePicked(info, releases)
    requires info.stable.Some?
    ensures info.latest.Some?
    ensures !Lt(IntTupleKey(info.latest.value), IntTupleKey(info.stable.value))
  {
    var s :| GreatestLts(s, releases) && info.stable.value == Stripped(s.version)
             && Get(info.details, "stable_info") == StableInfo(s);
    assert releases != [];
    var l :| Greatest(l, releases) && info.latest.value == Stripped(l.version)
             && Get(info.details, "latest_info") == LatestInfo(l);
    assert !Lt(VersionSortKey(l), VersionSortKey(s));
  }

  /**
   * The recent "all" list: the first five versions in descending order
   * (fewer when the feed is shorter), each that of a release of the feed,
   * in descending key order.
   */
  lemma RecentDescending(releases: seq<Release>)
    ensures var sorted := Ranked(releases);
      var all := Recent(sorted);
      && |all| == (if |releases| < 5 then |releases| else 5)
      && (forall i :: 0 <= i < |all| ==> sorted[i] in releases && all[i] == Stripped(sorted[i].version))
      && (forall i, j :: 0 <= i < j < |all| ==> !Lt(IntTupleKey(all[i]), IntTupleKey(all[j])))
  {
    var sorted := Ranked(releases);
    forall k | 0 <= k < |sorted|
      ensures sorted[k] in releases
    {
      SortedMember(releases, VersionSortKey, true, sorted[k]);
    }
    RecentOfSorted(sorted);
  }

  /**
   * The recent "lts" list: at most five versions, the i-th that of the i-th
   * LTS release in descending order, which is an LTS release of the feed;
   * the versions are in descending key order.
   */
  lemma RecentLtsDescending(releases: seq<Release>)
    ensures var sorted := LtsRanked(releases);
      var lts := Recent(sorted);
      && |lts| <= 5
      && (forall i :: 0 <= i < |lts| ==>
            sorted[i] in releases && IsLts(sorted[i]) && lts[i] == Stripped(sorted[i].version))
      && (forall i, j :: 0 <= i < j < |lts| ==> !Lt(IntTupleKey(lts[i]), IntTupleKey(lts[j])))
  {
    var sorted := LtsRanked(releases);
    forall k | 0 <= k < |sorted|
      ensures sorted[k] in releases && IsLts(sorted[k])
    {
      LtsRankedMember(releases, sorted[k]);
    }
    RecentOfSorted(sorted);
  }

  /** The sorted LTS releases are LTS releases of the feed. */
  lemma LtsRankedMember(releases: seq<Release>, x: Release)
    requires x in LtsRanked(releases)
    ensures x in releases && IsLts(x)
  {
    var ranked := Ranked(releases);
    SortedMember(Filter(ranked, IsLts), VersionSortKey, true, x);
    FilterMember(ranked, IsLts, x);
    SortedMember(releases, VersionSortKey, true, x);
  }

  /** The first five versions of a list sorted by descending key are in descending key order. */
  lemma RecentOfSorted(sorted: seq<Release>)
    requires SortedBy(sorted, VersionSortKey, true)
    ensures var all := Recent(sorted);
      forall i, j :: 0 <= i < j < |all| ==> !Lt(IntTupleKey(all[i]), IntTupleKey(all[j]))
  {
    var all := Recent(sorted);
    forall i, j | 0 <= i < j < |all|
      ensures !Lt(IntTupleKey(all[i]), IntTupleKey(all[j]))
    {
      assert !Precedes(true, VersionSortKey(sorted[j]), VersionSortKey(sorted[i]));
    }
  }
}
