/**
 * version/rust_fetch.py after the downloads: the GitHub release list when
 * it was fetched and is not empty, otherwise the "Version X.Y.Z" headings
 * of RELEASES.md sorted newest first.
 */
module RustFetch {
  import opened Wrappers
  import opened Json
  import opened Text
  import opened SortKey
  import opened Legacy

  /**
   * One decoded GitHub release: "tag_name", "prerelease" (`false` when
   * missing) and "published_at" ("" when missing).
   */
  datatype Release = Release(tagName: string, prerelease: Json, publishedAt: string)

  /** `tag_name.lstrip("v")` */
  function Stripped(tag: string): string { LStrip(tag, {'v'}) }

  /** `not r.get("prerelease", False)` */
  predicate IsFinal(r: Release) { !Truthy(r.prerelease) }

  /** `[r["tag_name"].lstrip("v") for r in releases[:5]]` */
  function RecentTags(releases: seq<Release>): (vs: seq<string>)
    ensures |vs| == if |releases| < 5 then |releases| else 5
    ensures forall i :: 0 <= i < |vs| ==> vs[i] == Stripped(releases[i].tagName)
  {
    var n := if |releases| < 5 then |releases| else 5;
    seq(n, i requires 0 <= i < n => Stripped(releases[i].tagName))
  }

  // -------------------------------------------------------- RELEASES.md

  /** `Version\s+(\d+\.\d+\.\d+)` matches at `i`. */
  predicate HeadingAt(s: string, i: nat)
  {
    i + 7 <= |s| && s[i..i + 7] == "Version" &&
    var e := RunEnd(s, i + 7, IsSpace);
    e > i + 7 && TripleSplit(s[e..]).Some?
  }

  /** The group the heading at `i` captures. */
  function HeadingVersion(s: string, i: nat): (v: string)
    requires HeadingAt(s, i)
    ensures TripleSplit(v).Some? && TripleSplit(v).value.3 == ""
  {
    var e := RunEnd(s, i + 7, IsSpace);
    var t := TripleSplit(s[e..]).value;
    TripleSplitOf(t.0, t.1, t.2, "");
    assert t.0 + "." + t.1 + "." + t.2 + "" == t.0 + "." + t.1 + "." + t.2;
    t.0 + "." + t.1 + "." + t.2
  }

  /**
   * `re.findall(r"Version\s+(\d+\.\d+\.\d+)", content)`: the version of
   * every heading, in document order. A match holds no 'V' after its first
   * character, so matches cannot overlap and every position is reported.
   */
  function FindVersions(s: string): (r: seq<string>)
    ensures var ps := Positions(|s|, (i: nat) => HeadingAt(s, i), 0);
      |r| == |ps| && forall k :: 0 <= k < |r| ==> r[k] == HeadingVersion(s, ps[k])
    ensures forall k :: 0 <= k < |r| ==> TripleSplit(r[k]).Some? && TripleSplit(r[k]).value.3 == ""
  {
    var ps := Positions(|s|, (i: nat) => HeadingAt(s, i), 0);
    seq(|ps|, k requires 0 <= k < |ps| => HeadingVersion(s, ps[k]))
  }

  /** `versions.sort(key=lambda v: [int(n) for n in v.split(".")], reverse=True)` */
  function Ranked(versions: seq<string>): seq<string>
  {
    SortBy(versions, IntsKey, true)
  }

  // ------------------------------------------------------------ fetch

  /**
   * `fetch_rust_versions`. `github` is the decoded release list, `None`
   * when its request or decoding raised; `releasesMd` is the RELEASES.md
   * download. A non-empty GitHub list decides everything: the latest is its
   * first tag, the stable its first tag that is not a prerelease, else the
   * latest. Otherwise the headings of RELEASES.md are used: latest and
   * stable are both a greatest version, and the recent versions the first
   * five in descending order. A failed RELEASES.md download leaves only the
   * error.
   */
  method FetchRustVersions(github: Option<seq<Release>>, releasesMd: Response<string>) returns (info: LegacyInfo)
    ensures github.Some? && github.value != [] ==> FromGithub(info, github.value)
    ensures (github.None? || github.value == []) && releasesMd.Failed? ==>
      info == LegacyInfo(None, None, map["error" := JStr(releasesMd.msg)])
    ensures (github.None? || github.value == []) && releasesMd.Fetched? ==> FromReleasesMd(info, releasesMd.body)
  {
    if github.Some? && github.value != [] {
      info := GithubInfo(github.value);
      return;
    }
    if releasesMd.Failed? {
      return LegacyInfo(None, None, map["error" := JStr(releasesMd.msg)]);
    }
    info := ReleasesMdInfo(releasesMd.body);
  }

  /**
   * The GitHub path: the latest is the first tag; the stable is the first
   * tag that is not a prerelease, else the latest.
   */
  predicate FromGithub(info: LegacyInfo, releases: seq<Release>)
    requires releases != []
  {
    var first := FirstWhere(releases, IsFinal);
    && info.latest == Some(Stripped(releases[0].tagName))
    && (first.Some? ==> info.stable == Some(Stripped(releases[first.value].tagName)))
    && (first.None? ==> info.stable == info.latest)
    && Get(info.details, "source") == JStr("github_api")
    && Get(info.details, "release_date") == JStr(Split(releases[0].publishedAt, 'T')[0])
    && Get(info.details, "recent_versions") == StrList(RecentTags(releases))
  }

  /**
   * The fallback: latest and stable are both a greatest heading version,
   * present exactly when there is a heading; the recent versions are the
   * first five in descending order.
   */
  predicate FromReleasesMd(info: LegacyInfo, content: string)
  {
    var versions := FindVersions(content);
    && Get(info.details, "source") == JStr("releases_md")
    && (info.latest.Some? <==> versions != [])
    && info.stable == info.latest
    && (info.latest.Some? ==> info.latest.value in versions)
    && (info.latest.Some? ==> forall v :: v in versions ==> !Lt(IntsKey(info.latest.value), IntsKey(v)))
    && (versions != [] ==> Get(info.details, "recent_versions") == StrList(PyPrefix(Ranked(versions), 5)))
  }

  method GithubInfo(releases: seq<Release>) returns (info: LegacyInfo)
    requires releases != []
    ensures FromGithub(info, releases)
  {
    var latest := Stripped(releases[0].tagName);
    var first := FirstWhere(releases, IsFinal);
    var stable := if first.Some? then Stripped(releases[first.value].tagName) else latest;
    var details := map["source" := JStr("github_api"),
                       "release_date" := JStr(Split(releases[0].publishedAt, 'T')[0]),
                       "recent_versions" := StrList(RecentTags(releases))];
    info := LegacyInfo(Some(latest), Some(stable), details);
  }

  method ReleasesMdInfo(content: string) returns (info: LegacyInfo)
    ensures FromReleasesMd(info, content)
  {
    var versions := FindVersions(content);
    if versions == [] {
      info := LegacyInfo(None, None, map["source" := JStr("releases_md")]);
      assert Get(info.details, "source") == JStr("releases_md");
      return;
    }
    var sorted := SortBy(versions, IntsKey, true);
    info := LegacyInfo(Some(sorted[0]), Some(sorted[0]), MdDetails(PyPrefix(sorted, 5)));
    MdPicked(versions, info);
  }

  lemma MdPicked(versions: seq<string>, info: LegacyInfo)
    requires versions != []
    requires info.latest == Some(Ranked(versions)[0]) && info.stable == info.latest
    ensures info.latest.value in versions
    ensures forall v :: v in versions ==> !Lt(IntsKey(info.latest.value), IntsKey(v))
  {
    SortedTop(versions, IntsKey);
  }

  function MdDetails(recent: seq<string>): (d: map<string, Json>)
    ensures Get(d, "source") == JStr("releases_md") && Get(d, "recent_versions") == StrList(recent)
  {
    map["source" := JStr("releases_md"), "recent_versions" := StrList(recent)]
  }

  /** The recent versions of the fallback: at most five headings, in descending order. */
  lemma RecentDescending(content: string)
    ensures var recent := PyPrefix(Ranked(FindVersions(content)), 5);
      && |recent| <= 5
      && (forall k :: 0 <= k < |recent| ==> recent[k] in FindVersions(content))
      && (forall i, j :: 0 <= i < j < |recent| ==> !Lt(IntsKey(recent[i]), IntsKey(recent[j])))
  {
    var versions := FindVersions(content);
    var sorted := Ranked(versions);
    var recent := PyPrefix(sorted, 5);
    forall k | 0 <= k < |recent|
      ensures recent[k] in versions
    {
      assert recent[k] == sorted[k];
      SortedMember(versions, IntsKey, true, sorted[k]);
    }
    forall i, j | 0 <= i < j < |recent|
      ensures !Lt(IntsKey(recent[i]), IntsKey(recent[j]))
    {
      assert !Precedes(true, IntsKey(sorted[j]), IntsKey(sorted[i]));
    }
  }
}
