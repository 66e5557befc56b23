/**
 * version/python_fetch.py after the download: the published releases of
 * the python.org feed become candidates, sorted newest first by release
 * date; the first is the latest and the first stable one the stable.
 */
module PythonFetch {
  import opened Wrappers
  import opened Json
  import opened Text
  import opened SortKey
  import opened Legacy
  import Seqs

  const Url: string := "https://www.python.org/api/v2/downloads/release/?is_published=true"

  /**
   * One decoded release: the truthiness of its `is_published`, its `name`
   * as `str()` renders it, and its `release_date` ("" when missing).
   */
  datatype Release = Release(isPublished: bool, name: string, releaseDate: string)

  /** The dict the loop appends: version, date and stability. */
  datatype Candidate = Candidate(version: string, date: string, isStable: bool)

  /** None of "a", "b", "rc" occurs in the lower-cased version. */
  predicate IsStable(version: string)
  {
    !ContainsAny(Lower(version), ["a", "b", "rc"])
  }

  function CandidateOf(r: Release): (c: Candidate)
    ensures c.version == Replace(r.name, "Python ", "") && c.date == r.releaseDate
    ensures c.isStable <==> IsStable(c.version)
  {
    var v := Replace(r.name, "Python ", "");
    Candidate(v, r.releaseDate, IsStable(v))
  }

  /** The candidates of the published releases, in feed order. */
  function Published(releases: seq<Release>): (cs: seq<Candidate>)
    ensures |cs| <= |releases|
    ensures forall c :: c in cs <==> exists r :: r in releases && r.isPublished && c == CandidateOf(r)
  {
    if releases == [] then []
    else
      var init := releases[..|releases| - 1];
      var last := releases[|releases| - 1];
      assert releases == init + [last];
      Published(init) + (if last.isPublished then [CandidateOf(last)] else [])
  }

  /** The loop over the feed. */
  method CollectCandidates(releases: seq<Release>) returns (versions: seq<Candidate>)
    ensures versions == Published(releases)
  {
    versions := [];
    var i := 0;
    while i < |releases|
      invariant 0 <= i <= |releases|
      invariant versions == Published(releases[..i])
    {
      assert releases[..i + 1][..i] == releases[..i];
      if releases[i].isPublished {
        versions := versions + [CandidateOf(releases[i])];
      }
      i := i + 1;
    }
    assert releases[..|releases|] == releases;
  }

  /** The filter of `next(...)`: the candidate is stable. */
  predicate Stable(c: Candidate) { c.isStable }

  /** The sort key: the release date string. */
  function DateKey(c: Candidate): Key { [Str(c.date)] }

  /** A candidate as stored under "latest_info" / "stable_info". */
  function CandidateJson(c: Candidate): Json
  {
    JObj(map["version" := JStr(c.version), "date" := JStr(c.date), "is_stable" := JBool(c.isStable)])
  }

  /** Python's `s < t` on two strings. */
  predicate DateBefore(s: string, t: string)
  {
    StrCompare(s, t) == Less
  }

  /** Sorting by the date key orders by the date strings. */
  lemma DateKeyOrder(c: Candidate, d: Candidate)
    ensures Lt(DateKey(c), DateKey(d)) <==> DateBefore(c.date, d.date)
  {
    if c.date == d.date {
      assert DateKey(c) == DateKey(d);
    } else {
      assert DateKey(c)[0] != DateKey(d)[0];
    }
  }

  /** `c` is a candidate with the latest date. */
  predicate Newest(c: Candidate, cs: seq<Candidate>)
  {
    c in cs && forall d :: d in cs ==> !DateBefore(c.date, d.date)
  }

  /** `c` is a stable candidate with the latest date among the stable ones. */
  predicate NewestStable(c: Candidate, cs: seq<Candidate>)
  {
    c in cs && c.isStable && forall d :: d in cs && d.isStable ==> !DateBefore(c.date, d.date)
  }

  /**
   * `c` is the newest candidate that comes first in feed order: the stable
   * sort keeps candidates of one date in the order of the feed.
   */
  predicate FirstNewest(c: Candidate, cs: seq<Candidate>)
  {
    && Newest(c, cs)
    && exists i :: 0 <= i < |cs| && cs[i] == c && forall j :: 0 <= j < i ==> !Newest(cs[j], cs)
  }

  /** `c` is the newest stable candidate that comes first in feed order. */
  predicate FirstNewestStable(c: Candidate, cs: seq<Candidate>)
  {
    && NewestStable(c, cs)
    && exists i :: 0 <= i < |cs| && cs[i] == c && forall j :: 0 <= j < i ==> !NewestStable(cs[j], cs)
  }

  /**
   * The latest: present exactly when there are candidates, and then the
   * first newest one, stored as "latest_info".
   */
  ghost predicate LatestPicked(info: LegacyInfo, cs: seq<Candidate>)
  {
    && (info.latest.Some? <==> cs != [])
    && (info.latest.Some? ==>
          exists c :: FirstNewest(c, cs) && info.latest.value == c.version
                      && Get(info.details, "latest_info") == CandidateJson(c))
  }

  /**
   * The stable: present exactly when a candidate is stable, and then the
   * first newest stable one, stored as "stable_info".
   */
  ghost predicate StablePicked(info: LegacyInfo, cs: seq<Candidate>)
  {
    && (info.stable.Some? <==> exists c :: c in cs && c.isStable)
    && (info.stable.Some? ==>
          exists c :: FirstNewestStable(c, cs) && info.stable.value == c.version
                      && Get(info.details, "stable_info") == CandidateJson(c))
  }

  /**
   * `fetch_python_versions` once the feed is decoded: the latest is the
   * first published release in feed order with the latest date; the stable
   * one exists exactly when some published release is stable, and is the
   * first of those with the latest date among them. A failed download
   * leaves only the error.
   */
  method FetchPythonVersions(response: Response<seq<Release>>) returns (info: LegacyInfo)
    ensures response.Failed? ==> info == LegacyInfo(None, None, map["error" := JStr(response.msg)])
    ensures response.Fetched? ==>
      && Get(info.details, "source") == JStr(Url) && Get(info.details, "fetch_time") == response.fetchTime
      && LatestPicked(info, Published(response.body))
      && StablePicked(info, Published(response.body))
  {
    if response.Failed? {
      return LegacyInfo(None, None, map["error" := JStr(response.msg)]);
    }
    var versions := CollectCandidates(response.body);
    info := Select(versions, response.fetchTime);
  }

  /** The sort and the two picks. */
  method Select(cs: seq<Candidate>, fetchTime: Json) returns (info: LegacyInfo)
    ensures Get(info.details, "source") == JStr(Url) && Get(info.details, "fetch_time") == fetchTime
    ensures LatestPicked(info, cs) && StablePicked(info, cs)
  {
    var versions := SortBy(cs, DateKey, true);
    if versions == [] {
      assert |cs| == |versions|;
      return LegacyInfo(None, None, Source(Url, fetchTime));
    }
    LatestFirst(cs);
    var latest := versions[0];
    var stable := PickStable(cs, versions);
    match stable
    case None =>
      info := LegacyInfo(Some(latest.version), None, Details(fetchTime, CandidateJson(latest), None));
      Picked(info, cs, latest, latest);
    case Some(c) =>
      info := LegacyInfo(Some(latest.version), Some(c.version),
                         Details(fetchTime, CandidateJson(latest), Some(CandidateJson(c))));
      Picked(info, cs, latest, c);
  }

  /** The details as the assignments leave them, given the stored forms of the picks. */
  function Details(fetchTime: Json, latestInfo: Json, stableInfo: Option<Json>): (d: map<string, Json>)
    ensures Get(d, "source") == JStr(Url) && Get(d, "fetch_time") == fetchTime
    ensures Get(d, "latest_info") == latestInfo
    ensures stableInfo.Some? ==> Get(d, "stable_info") == stableInfo.value
  {
    DetailKeysDistinct();
    var withLatest := Source(Url, fetchTime)["latest_info" := latestInfo];
    if stableInfo.Some? then withLatest["stable_info" := stableInfo.value] else withLatest
  }

  /** `next((v for v in versions if v["is_stable"]), None)` on the sorted candidates. */
  method PickStable(cs: seq<Candidate>, versions: seq<Candidate>) returns (stable: Option<Candidate>)
    requires versions == SortBy(cs, DateKey, true)
    ensures stable.None? ==> forall c :: c in cs ==> !c.isStable
    ensures stable.Some? ==> FirstNewestStable(stable.value, cs)
  {
    StableOfSorted(cs);
    StableFirst(cs);
    var k := FirstWhere(versions, Stable);
    if k.None? {
      return None;
    }
    stable := Some(versions[k.value]);
  }

  /** The picks, given their witnesses. */
  lemma Picked(info: LegacyInfo, cs: seq<Candidate>, latest: Candidate, stable: Candidate)
    requires info.latest == Some(latest.version) && FirstNewest(latest, cs)
    requires Get(info.details, "latest_info") == CandidateJson(latest)
    requires info.stable.Some? ==> info.stable.value == stable.version && FirstNewestStable(stable, cs)
    requires info.stable.Some? ==> Get(info.details, "stable_info") == CandidateJson(stable)
    requires info.stable.None? ==> forall c :: c in cs ==> !c.isStable
    ensures LatestPicked(info, cs) && StablePicked(info, cs)
  {
  }

  lemma LatestOfSorted(cs: seq<Candidate>)
    requires cs != []
    ensures Newest(SortBy(cs, DateKey, true)[0], cs)
  {
    var r := SortBy(cs, DateKey, true);
    SortedTop(cs, DateKey);
    forall d | d in cs
      ensures !DateBefore(r[0].date, d.date)
    {
      DateKeyOrder(r[0], d);
    }
  }

  lemma StableOfSorted(cs: seq<Candidate>)
    ensures var r := SortBy(cs, DateKey, true);
      var k := FirstWhere(r, Stable);
      && (k.Some? <==> exists c :: c in cs && c.isStable)
      && (k.Some? ==> NewestStable(r[k.value], cs))
  {
    var r := SortBy(cs, DateKey, true);
    SortedFirstWhere(cs, DateKey, Stable);
    var k := FirstWhere(r, Stable);
    if k.Some? {
      forall d | d in cs && d.isStable
        ensures !DateBefore(r[k.value].date, d.date)
      {
        DateKeyOrder(r[k.value], d);
      }
    }
  }

  /** Two different dates, the first not after the second: the first is before it. */
  lemma DateBeforeTotal(a: string, b: string)
    requires a != b && !DateBefore(b, a)
    ensures DateBefore(a, b)
  {
    StrCompareFlip(a, b);
  }

  function OnDate(d: string): (p: Candidate -> bool)
    ensures forall c :: p(c) == (c.date == d)
  {
    (c: Candidate) => c.date == d
  }

  function StableOnDate(d: string): (p: Candidate -> bool)
    ensures forall c :: p(c) == (c.isStable && c.date == d)
  {
    (c: Candidate) => c.isStable && c.date == d
  }

  /**
   * The sorted head is the first newest candidate in feed order: the sort
   * keeps the candidates of its date in feed order.
   */
  lemma LatestFirst(cs: seq<Candidate>)
    requires cs != []
    ensures FirstNewest(SortBy(cs, DateKey, true)[0], cs)
  {
    var r := SortBy(cs, DateKey, true);
    LatestOfSorted(cs);
    var d := r[0].date;
    var p := OnDate(d);
    SortStable(cs, DateKey, true, p, [Str(d)]);
    Seqs.FilterFirst(r, p, 0);
    var i :| 0 <= i < |cs| && cs[i] == r[0];
    var k := FirstWhere(cs, p);
    assert p(cs[i]);
    Seqs.FilterFirst(cs, p, k.value);
    forall j | 0 <= j < k.value
      ensures !Newest(cs[j], cs)
    {
      DateBeforeTotal(cs[j].date, d);
    }
  }

  /**
   * The first stable candidate of the sort is the first newest stable one
   * in feed order.
   */
  lemma StableFirst(cs: seq<Candidate>)
    ensures var r := SortBy(cs, DateKey, true);
      var m := FirstWhere(r, Stable);
      m.Some? ==> FirstNewestStable(r[m.value], cs)
  {
    var r := SortBy(cs, DateKey, true);
    StableOfSorted(cs);
    var m := FirstWhere(r, Stable);
    if m.Some? {
      var c := r[m.value];
      var p := StableOnDate(c.date);
      SortStable(cs, DateKey, true, p, [Str(c.date)]);
      Seqs.FilterFirst(r, p, m.value);
      var i :| 0 <= i < |cs| && cs[i] == c;
      var k := FirstWhere(cs, p);
      assert p(cs[i]);
      Seqs.FilterFirst(cs, p, k.value);
      forall j | 0 <= j < k.value
        ensures !NewestStable(cs[j], cs)
      {
        if cs[j].isStable {
          DateBeforeTotal(cs[j].date, c.date);
        }
      }
    }
  }

  /** At most one candidate is the first newest, so the latest pick is determined. */
  lemma FirstNewestUnique(c: Candidate, d: Candidate, cs: seq<Candidate>)
    requires FirstNewest(c, cs) && FirstNewest(d, cs)
    ensures c == d
  {
    var i :| 0 <= i < |cs| && cs[i] == c && forall j :: 0 <= j < i ==> !Newest(cs[j], cs);
    var i2 :| 0 <= i2 < |cs| && cs[i2] == d && forall j :: 0 <= j < i2 ==> !Newest(cs[j], cs);
    assert !(i < i2) && !(i2 < i);
  }

  /** At most one candidate is the first newest stable one, so the stable pick is determined. */
  lemma FirstNewestStableUnique(c: Candidate, d: Candidate, cs: seq<Candidate>)
    requires FirstNewestStable(c, cs) && FirstNewestStable(d, cs)
    ensures c == d
  {
    var i :| 0 <= i < |cs| && cs[i] == c && forall j :: 0 <= j < i ==> !NewestStable(cs[j], cs);
    var i2 :| 0 <= i2 < |cs| && cs[i2] == d && forall j :: 0 <= j < i2 ==> !NewestStable(cs[j], cs);
    assert !(i < i2) && !(i2 < i);
  }
}
