/**
 * The tag rules of the Node.js fetcher (version/fetchers/nodejs.py). The
 * list of LTS versions and the direct tag lookup come from HTTP in the
 * source; here the decoded release index is an input and the lookup of a
 * tag's commit is the oracle `directSha`.
 */
module NodeTags {
  import opened Wrappers
  import opened Text
  import opened Json
  import opened Utils
  import opened Base
  import opened SortKey
  import opened Seqs

  const Unstable: seq<string> := ["rc", "alpha", "beta", "nightly", "test", "next", "experimental"]

  /** `_is_stable_tag`: "v…", exactly three dot-separated parts, none of the fragments. */
  predicate IsStableTag(tag: Tag)
    ensures IsStableTag(tag) ==> Count(tag.name, '.') == 2 && tag.name[0] == 'v'
  {
    StartsWith(tag.name, "v") && |Split(tag.name, '.')| == 3 && !ContainsAny(Lower(tag.name), Unstable)
  }

  /** `nodejs_filter_func`, the same test written out a second time. */
  predicate FilterFunc(tag: Tag)
    ensures FilterFunc(tag) <==> IsStableTag(tag)
  {
    var name := tag.name;
    StartsWith(name, "v") && |Split(name, '.')| == 3 && !ContainsAny(Lower(name), Unstable)
  }

  /** `_parse_version_from_tag`; `Err` is the ParseError for a tag without a name. */
  function ParseTag(tag: Tag): (r: Result<ReleaseInfo>)
    ensures r.Err? <==> tag.name == ""
    ensures r.Err? ==> r.msg == "No tag name found"
    ensures r.Ok? ==> r.value.version == Clean(LStrip(tag.name, {'v'}))
    ensures r.Ok? ==> r.value.additionalInfo == TagInfo(tag)["is_lts" := JBool(false)]
    ensures r.Ok? ==> r.value.additionalInfo["tag_name"] == JStr(tag.name)
  {
    if tag.name == "" then Err("No tag name found")
    else Ok(NewRelease(LStrip(tag.name, {'v'}), None, false, TagInfo(tag)["is_lts" := JBool(false)], NoDate))
  }

  // ------------------------------------------------------ stability rule

  /** A release matches an LTS version by its version or by its tag name "v" + version. */
  predicate MatchesLts(r: ReleaseInfo, lts: string)
  {
    r.version == lts || ("tag_name" in r.additionalInfo && r.additionalInfo["tag_name"] == JStr("v" + lts))
  }

  /** The first release matching `lts`. */
  function FirstMatching(releases: seq<ReleaseInfo>, lts: string): (r: Option<nat>)
    ensures r.Some? ==> r.value < |releases| && MatchesLts(releases[r.value], lts)
    ensures r.Some? ==> forall j :: 0 <= j < r.value ==> !MatchesLts(releases[j], lts)
    ensures r.None? ==> forall j :: 0 <= j < |releases| ==> !MatchesLts(releases[j], lts)
  {
    if releases == [] then None
    else if MatchesLts(releases[0], lts) then Some(0)
    else match FirstMatching(releases[1..], lts)
      case None => None
      case Some(k) => Some(k + 1)
  }

  /**
   * The LTS step: for the LTS versions in order, the first release that
   * matches; the first LTS version with any match decides.
   */
  function FirstLtsMatch(releases: seq<ReleaseInfo>, lts: seq<string>): (r: Option<ReleaseInfo>)
    ensures r.Some? ==> r.value in releases
    ensures r.Some? ==> exists i :: 0 <= i < |lts| && MatchesLts(r.value, lts[i])
    ensures r.None? <==> forall i, j :: 0 <= i < |lts| && 0 <= j < |releases| ==> !MatchesLts(releases[j], lts[i])
  {
    if lts == [] then None
    else
      match FirstMatching(releases, lts[0])
      case Some(k) => Some(releases[k])
      case None =>
        var rest := FirstLtsMatch(releases, lts[1..]);
        assert forall i :: 1 <= i < |lts| ==> lts[i] == lts[1..][i - 1];
        rest
  }

  /**
   * The LTS versions are tried in order: the pick is the first release
   * matching the first LTS version that any release matches.
   */
  lemma {:induction false} LtsPriority(releases: seq<ReleaseInfo>, lts: seq<string>)
    ensures FirstLtsMatch(releases, lts).Some? ==>
      exists i :: 0 <= i < |lts| && DecidingLts(releases, lts, i) &&
                  FirstLtsMatch(releases, lts).value == releases[FirstMatching(releases, lts[i]).value]
  {
    if lts != [] {
      match FirstMatching(releases, lts[0])
      case Some(k) =>
        assert DecidingLts(releases, lts, 0);
      case None =>
        LtsPriority(releases, lts[1..]);
        var rest := FirstLtsMatch(releases, lts[1..]);
        if rest.Some? {
          var i :| 0 <= i < |lts[1..]| && DecidingLts(releases, lts[1..], i) &&
                   rest.value == releases[FirstMatching(releases, lts[1..][i]).value];
          DecidingShift(releases, lts, i);
        }
    }
  }

  /** The `i`-th LTS version is the first one that some release matches. */
  predicate DecidingLts(releases: seq<ReleaseInfo>, lts: seq<string>, i: nat)
    requires i < |lts|
  {
    FirstMatching(releases, lts[i]).Some? && forall h :: 0 <= h < i ==> FirstMatching(releases, lts[h]).None?
  }

  /** Deciding among the LTS versions after the first, when nothing matches the first. */
  lemma DecidingShift(releases: seq<ReleaseInfo>, lts: seq<string>, i: nat)
    requires 0 < |lts| && i < |lts| - 1 && FirstMatching(releases, lts[0]).None?
    requires DecidingLts(releases, lts[1..], i)
    ensures DecidingLts(releases, lts, i + 1) && lts[i + 1] == lts[1..][i]
  {
    forall h | 0 <= h < i + 1 ensures FirstMatching(releases, lts[h]).None? {
      if h > 0 {
        assert lts[h] == lts[1..][h - 1];
      }
    }
  }

  /** The tag `_get_specific_tag` returns: a name and a commit, no archive URLs. */
  function DirectTag(lts: string, sha: string): Tag
  {
    Tag("v" + lts, Some(sha), None, None)
  }

  /** The release built from a directly looked-up tag, marked as LTS. */
  function DirectRelease(lts: string, sha: string): (r: ReleaseInfo)
    ensures ParseTag(DirectTag(lts, sha)).Ok?
    ensures r == ParseTag(DirectTag(lts, sha)).value.(additionalInfo := r.additionalInfo)
    ensures r.additionalInfo == TagInfo(DirectTag(lts, sha))["is_lts" := JBool(true)]
  {
    var tag := DirectTag(lts, sha);
    assert tag.name != "" by { assert tag.name[0] == 'v'; }
    var parsed := ParseTag(tag).value;
    assert parsed.additionalInfo == TagInfo(tag)["is_lts" := JBool(false)];
    // the parsed info with "is_lts" overwritten
    parsed.(additionalInfo := TagInfo(tag)["is_lts" := JBool(true)])
  }

  /** The direct release's version is the LTS version, cleaned. */
  lemma DirectReleaseVersion(lts: string, sha: string)
    ensures DirectRelease(lts, sha).version == Clean(LStrip(lts, {'v'}))
    ensures DirectRelease(lts, sha).additionalInfo["tag_name"] == JStr("v" + lts)
  {
    StripLeadingV(lts);
  }

  lemma StripLeadingV(s: string)
    ensures LStrip("v" + s, {'v'}) == LStrip(s, {'v'})
  {
    assert ("v" + s)[1..] == s;
  }

  /**
   * The direct step: the first LTS version beginning "22." whose tag the
   * lookup finds. (Its version keeps a leading "v" removed by cleaning,
   * as the parser would.)
   */
  function DirectLts(lts: seq<string>, directSha: string -> Option<string>): (r: Option<ReleaseInfo>)
    ensures r.Some? ==> exists i :: 0 <= i < |lts| && StartsWith(lts[i], "22.")
                                 && directSha("v" + lts[i]).Some?
                                 && r.value == DirectRelease(lts[i], directSha("v" + lts[i]).value)
    ensures r.None? <==> forall i :: 0 <= i < |lts| && StartsWith(lts[i], "22.") ==> directSha("v" + lts[i]).None?
  {
    if lts == [] then None
    else if StartsWith(lts[0], "22.") && directSha("v" + lts[0]).Some? then
      Some(DirectRelease(lts[0], directSha("v" + lts[0]).value))
    else
      var rest := DirectLts(lts[1..], directSha);
      assert forall i :: 1 <= i < |lts| ==> lts[i] == lts[1..][i - 1];
      rest
  }

  /** `int(version.split(".")[0]) % 2 == 0`, false where `int` raises. */
  predicate IsEvenMajor(r: ReleaseInfo)
  {
    match PyInt(Split(r.version, '.')[0])
    case None => false
    case Some(n) => n % 2 == 0
  }

  /** The releases with an even major version, in order. */
  function EvenMajors(releases: seq<ReleaseInfo>): (r: seq<ReleaseInfo>)
    ensures forall k :: 0 <= k < |r| ==> IsEvenMajor(r[k]) && r[k] in releases
    ensures r == [] <==> forall k :: 0 <= k < |releases| ==> !IsEvenMajor(releases[k])
  {
    Filter(releases, IsEvenMajor)
  }

  /** The first element of `EvenMajors` is the first even-major release. */
  lemma FirstEvenMajor(releases: seq<ReleaseInfo>, k: nat)
    requires k < |releases| && IsEvenMajor(releases[k])
    requires forall j :: 0 <= j < k ==> !IsEvenMajor(releases[j])
    ensures EvenMajors(releases) != [] && EvenMajors(releases)[0] == releases[k]
  {
    FilterFirst(releases, IsEvenMajor, k);
  }

  /** `_get_stability_criteria` with the LTS list `lts`. */
  function Criteria(releases: seq<ReleaseInfo>, lts: seq<string>,
                    directSha: string -> Option<string>): (r: Result<(ReleaseInfo, ReleaseInfo)>)
    ensures r.Err? <==> releases == []
    ensures r.Err? ==> r.msg == "No releases available"
    ensures r.Ok? ==> r.value.0 == releases[0]
    ensures r.Ok? ==> r.value.1 in releases || DirectLts(lts, directSha) == Some(r.value.1)
  {
    if releases == [] then Err("No releases available")
    else
      var latest := releases[0];
      match FirstLtsMatch(releases, lts)
      case Some(found) => Ok((latest, found))
      case None =>
        match DirectLts(lts, directSha)
        case Some(direct) => Ok((latest, direct))
        case None =>
          var even := EvenMajors(releases);
          if even != [] then Ok((latest, even[0])) else Ok((latest, latest))
  }

  /**
   * The order of preference: a release in the list matching an LTS version,
   * then a directly fetched 22.x LTS tag, then the first even-major release
   * in list order, then latest.
   */
  lemma CriteriaPreference(releases: seq<ReleaseInfo>, lts: seq<string>, directSha: string -> Option<string>)
    requires releases != []
    ensures FirstLtsMatch(releases, lts).Some? ==>
      Criteria(releases, lts, directSha).value.1 == FirstLtsMatch(releases, lts).value
    ensures FirstLtsMatch(releases, lts).None? && DirectLts(lts, directSha).Some? ==>
      var stable := Criteria(releases, lts, directSha).value.1;
      stable == DirectLts(lts, directSha).value && stable.additionalInfo["is_lts"] == JBool(true)
    ensures FirstLtsMatch(releases, lts).None? && DirectLts(lts, directSha).None? ==>
      forall k :: 0 <= k < |releases| && IsEvenMajor(releases[k]) &&
                  (forall j :: 0 <= j < k ==> !IsEvenMajor(releases[j])) ==>
                  Criteria(releases, lts, directSha).value.1 == releases[k]
    ensures FirstLtsMatch(releases, lts).None? && DirectLts(lts, directSha).None? &&
            (forall k :: 0 <= k < |releases| ==> !IsEvenMajor(releases[k])) ==>
      Criteria(releases, lts, directSha).value.1 == releases[0]
  {
    forall k | 0 <= k < |releases| && IsEvenMajor(releases[k]) && (forall j :: 0 <= j < k ==> !IsEvenMajor(releases[j]))
      ensures EvenMajors(releases) != [] && EvenMajors(releases)[0] == releases[k]
    {
      FirstEvenMajor(releases, k);
    }
  }

  /** `_get_stability_criteria` as the source runs it, its three loops taken in turn. */
  method StabilityCriteria(releases: seq<ReleaseInfo>, lts: seq<string>, directSha: string -> Option<string>)
    returns (r: Result<(ReleaseInfo, ReleaseInfo)>)
    ensures r == Criteria(releases, lts, directSha)
  {
    if releases == [] {
      return Err("No releases available");
    }
    var latest := releases[0];
    var found := MatchLtsLoop(releases, lts);
    if found.Some? {
      return Ok((latest, found.value));
    }
    var direct := DirectLtsLoop(lts, directSha);
    if direct.Some? {
      return Ok((latest, direct.value));
    }
    var evenMajorReleases := EvenMajorsLoop(releases);
    if evenMajorReleases != [] {
      return Ok((latest, evenMajorReleases[0]));
    }
    return Ok((latest, latest));
  }

  /** The nested loops over the LTS versions and the releases: the first match found. */
  method MatchLtsLoop(releases: seq<ReleaseInfo>, lts: seq<string>) returns (found: Option<ReleaseInfo>)
    ensures found == FirstLtsMatch(releases, lts)
  {
    for i := 0 to |lts|
      invariant FirstLtsMatch(releases, lts[i..]) == FirstLtsMatch(releases, lts)
    {
      for j := 0 to |releases|
        invariant forall k :: 0 <= k < j ==> !MatchesLts(releases[k], lts[i])
      {
        var release := releases[j];
        if MatchesLts(release, lts[i]) {
          LtsMatchHere(releases, lts, i, j);
          return Some(release);
        }
      }
      LtsMatchNext(releases, lts, i);
    }
    return None;
  }

  /** The first release matching the `i`-th LTS version is what the remaining LTS versions pick. */
  lemma LtsMatchHere(releases: seq<ReleaseInfo>, lts: seq<string>, i: nat, j: nat)
    requires i < |lts| && j < |releases| && MatchesLts(releases[j], lts[i])
    requires forall k :: 0 <= k < j ==> !MatchesLts(releases[k], lts[i])
    ensures FirstLtsMatch(releases, lts[i..]) == Some(releases[j])
  {
    var f := FirstMatching(releases, lts[i]);
    assert f.Some?;
    assert !(f.value < j) && !(j < f.value);
    assert lts[i..][0] == lts[i];
  }

  /** An LTS version nothing matches passes the choice to the next one. */
  lemma LtsMatchNext(releases: seq<ReleaseInfo>, lts: seq<string>, i: nat)
    requires i < |lts|
    requires forall k :: 0 <= k < |releases| ==> !MatchesLts(releases[k], lts[i])
    ensures FirstLtsMatch(releases, lts[i..]) == FirstLtsMatch(releases, lts[i + 1..])
  {
    assert lts[i..][0] == lts[i];
    assert FirstMatching(releases, lts[i]).None?;
    assert lts[i..][1..] == lts[i + 1..];
  }

  /** The loop looking up the 22.x LTS tags directly. */
  method DirectLtsLoop(lts: seq<string>, directSha: string -> Option<string>) returns (direct: Option<ReleaseInfo>)
    ensures direct == DirectLts(lts, directSha)
  {
    for i := 0 to |lts|
      invariant DirectLts(lts[i..], directSha) == DirectLts(lts, directSha)
    {
      if StartsWith(lts[i], "22.") {
        var sha := directSha("v" + lts[i]);
        if sha.Some? {
          return Some(DirectRelease(lts[i], sha.value));
        }
      }
      assert lts[i..][1..] == lts[i + 1..];
    }
    return None;
  }

  /** The loop building `even_major_releases`. */
  method EvenMajorsLoop(releases: seq<ReleaseInfo>) returns (evenMajorReleases: seq<ReleaseInfo>)
    ensures evenMajorReleases == EvenMajors(releases)
  {
    evenMajorReleases := [];
    for k := 0 to |releases|
      invariant evenMajorReleases == EvenMajors(releases[..k])
    {
      FilterSnoc(releases, IsEvenMajor, k);
      if IsEvenMajor(releases[k]) {
        evenMajorReleases := evenMajorReleases + [releases[k]];
      }
    }
    assert releases[..|releases|] == releases;
  }

  // ------------------------------------------------------ the LTS list

  /** `release.get("version", "").lstrip("v")`; `None` where it raises. */
  function EntryVersion(e: Json): Option<string>
  {
    if !e.JObj? then None
    else if "version" !in e.fields then Some("")
    else match e.fields["version"]
      case JStr(s) => Some(LStrip(s, {'v'}))
      case _ => None
  }

  /** `release.get("lts", False)` is truthy. */
  predicate EntryIsLts(e: Json)
  {
    e.JObj? && "lts" in e.fields && Truthy(e.fields["lts"])
  }

  /** The versions of the LTS entries, in index order; `None` when an entry raises. */
  function LtsCandidates(entries: seq<Json>): (r: Option<seq<string>>)
    ensures r.None? <==> exists k :: 0 <= k < |entries| && EntryVersion(entries[k]).None?
    ensures r.Some? ==> forall v :: v in r.value <==>
      exists k :: 0 <= k < |entries| && EntryIsLts(entries[k]) && EntryVersion(entries[k]) == Some(v)
  {
    if entries == [] then Some([])
    else
      var init := entries[..|entries| - 1];
      CandidatesStep(entries, LtsCandidates(init));
      WithCandidate(LtsCandidates(init), entries[|entries| - 1])
  }

  /** One more entry: its version joins when it is LTS; an entry that raises makes the whole list raise. */
  function WithCandidate(vs: Option<seq<string>>, e: Json): Option<seq<string>>
  {
    match vs
    case None => None
    case Some(vs) =>
      match EntryVersion(e)
      case None => None
      case Some(v) => Some(if EntryIsLts(e) then vs + [v] else vs)
  }

  /** `WithCandidate` extends what the candidates of all but the last entry say to all the entries. */
  lemma CandidatesStep(entries: seq<Json>, r0: Option<seq<string>>)
    requires entries != []
    requires var init := entries[..|entries| - 1];
      && (r0.None? <==> exists k :: 0 <= k < |init| && EntryVersion(init[k]).None?)
      && (r0.Some? ==> forall v :: v in r0.value <==>
            exists k :: 0 <= k < |init| && EntryIsLts(init[k]) && EntryVersion(init[k]) == Some(v))
    ensures var r := WithCandidate(r0, entries[|entries| - 1]);
      && (r.None? <==> exists k :: 0 <= k < |entries| && EntryVersion(entries[k]).None?)
      && (r.Some? ==> forall v :: v in r.value <==>
            exists k :: 0 <= k < |entries| && EntryIsLts(entries[k]) && EntryVersion(entries[k]) == Some(v))
  {
    var init := entries[..|entries| - 1];
    var n := |entries| - 1;
    assert forall k :: 0 <= k < |init| ==> init[k] == entries[k];
    var r := WithCandidate(r0, entries[n]);
    if r.Some? {
      forall v
        ensures v in r.value ==>
          exists k :: 0 <= k < |entries| && EntryIsLts(entries[k]) && EntryVersion(entries[k]) == Some(v)
      {
        if v in r.value && v !in r0.value {
          assert EntryIsLts(entries[n]) && EntryVersion(entries[n]) == Some(v);
        }
      }
    }
  }

  /** `[int(x) for x in v.split(".")]` succeeds. */
  predicate AllInts(v: string)
  {
    forall p :: p in Split(v, '.') ==> PyInt(p).Some?
  }

  /**
   * `_fetch_latest_lts_versions` after the download: the LTS versions
   * sorted newest first by their integer parts, or [] when anything raises.
   */
  function LtsVersions(entries: seq<Json>): (r: seq<string>)
    ensures r != [] ==> LtsCandidates(entries).Some?
    ensures r != [] ==> multiset(r) == multiset(LtsCandidates(entries).value)
    ensures SortedBy(r, IntsKey, true)
    ensures (LtsCandidates(entries).Some? && forall v :: v in LtsCandidates(entries).value ==> AllInts(v))
            ==> |r| == |LtsCandidates(entries).value|
    ensures LtsCandidates(entries).None? ==> r == []
    ensures LtsCandidates(entries).Some? && (exists v :: v in LtsCandidates(entries).value && !AllInts(v)) ==> r == []
  {
    match LtsCandidates(entries)
    case None => []
    case Some(vs) =>
      if vs == [] then []
      else if exists v :: v in vs && !AllInts(v) then []
      else SortBy(vs, IntsKey, true)
  }

  /** The loop of `_fetch_latest_lts_versions`, then its sort. */
  method FetchLatestLtsVersions(entries: seq<Json>) returns (r: seq<string>)
    ensures r == LtsVersions(entries)
  {
    var ltsVersions: seq<string> := [];
    for k := 0 to |entries|
      invariant LtsCandidates(entries[..k]) == Some(ltsVersions)
    {
      CandidatesPrefix(entries, k);
      var version := EntryVersion(entries[k]);
      if version.None? {
        LtsCandidatesFails(entries, k);
        return [];
      }
      if EntryIsLts(entries[k]) {
        ltsVersions := ltsVersions + [version.value];
      }
    }
    assert entries[..|entries|] == entries;
    if ltsVersions == [] {
      return [];
    }
    if exists v :: v in ltsVersions && !AllInts(v) {
      return [];
    }
    r := SortBy(ltsVersions, IntsKey, true);
  }

  lemma LtsCandidatesFails(entries: seq<Json>, k: nat)
    requires k < |entries| && EntryVersion(entries[k]).None?
    ensures LtsCandidates(entries).None?
  {
    assert 0 <= k < |entries| && EntryVersion(entries[k]).None?;
  }

  /** The candidates of one more entry. */
  lemma CandidatesPrefix(entries: seq<Json>, k: nat)
    requires k < |entries|
    ensures LtsCandidates(entries[..k + 1]) == WithCandidate(LtsCandidates(entries[..k]), entries[k])
  {
    assert entries[..k + 1][..k] == entries[..k];
  }
}
