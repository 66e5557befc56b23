/** The tag rules of the Go fetcher (version/fetchers/go.py). */
module GoTags {
  import opened Wrappers
  import opened Text
  import opened Utils
  import opened Base
  import PrevMinor

  /** The fragments whose presence in the lower-cased name rejects a tag. */
  const Unstable: seq<string> := ["rc", "alpha", "beta", "preview", "pre", "test", "dev", "snapshot"]

  /**
   * `_is_stable_tag`: "go…", exactly three '.'-separated parts once every
   * "go" is removed, none of the fragments.
   */
  predicate IsStableTag(tag: Tag)
    ensures IsStableTag(tag) ==> |tag.name| >= 2 && tag.name[..2] == "go"
    ensures IsStableTag(tag) ==> Count(Replace(tag.name, "go", ""), '.') == 2
  {
    StartsWith(tag.name, "go") && |Split(Replace(tag.name, "go", ""), '.')| == 3
    && !ContainsAny(Lower(tag.name), Unstable)
  }

  /**
   * `_parse_version_from_tag`: every leading 'g' and 'o' dropped (a set of
   * characters, not the word "go"), then cleaned; `Err` is the ParseError
   * for a tag without a name.
   */
  function ParseTag(tag: Tag): (r: Result<ReleaseInfo>)
    ensures r.Err? <==> tag.name == ""
    ensures r.Err? ==> r.msg == "No tag name found"
    ensures r.Ok? ==> r.value.version == Clean(LStrip(tag.name, {'g', 'o'}))
    ensures r.Ok? ==> r.value.additionalInfo == TagInfo(tag) && r.value.releaseDate.None?
    ensures r.Ok? ==> (r.value.prerelease <==> IsPrerelease(r.value.version))
  {
    if tag.name == "" then Err("No tag name found")
    else Ok(NewRelease(LStrip(tag.name, {'g', 'o'}), None, false, TagInfo(tag), NoDate))
  }

  /** `_get_stability_criteria`: the previous-minor rule. */
  function Criteria(releases: seq<ReleaseInfo>): (r: Result<(ReleaseInfo, ReleaseInfo)>)
    ensures r == PrevMinor.Criteria(releases)
    ensures r.Ok? ==> r.value.0 == releases[0] && r.value.1 in releases
  {
    PrevMinor.Criteria(releases)
  }

  /**
   * The strip works on characters, not on the word: a name made of any
   * run of 'g's and 'o's ("go", "gogo", "og") followed by `d`, `d`
   * starting with a digit, parses to `d` cleaned.
   */
  lemma ParseGoTag(p: string, d: string, tag: Tag)
    requires forall i :: 0 <= i < |p| ==> p[i] in {'g', 'o'}
    requires d != [] && IsDigit(d[0]) && tag.name == p + d
    ensures ParseTag(tag).Ok? && ParseTag(tag).value.version == Clean(d)
  {
    LStripRun(p, d, {'g', 'o'});
  }

  /**
   * "nightly" and "experimental" are prerelease markers the fragment list
   * leaves out: an accepted tag parses to a prerelease only through them.
   */
  lemma AcceptedTagPrerelease(tag: Tag)
    requires IsStableTag(tag)
    ensures ParseTag(tag).Ok?
    ensures ParseTag(tag).value.prerelease ==>
              Contains(Lower(tag.name), "nightly") || Contains(Lower(tag.name), "experimental")
  {
    PrereleaseEscapes(tag.name);
  }

  lemma PrereleaseEscapes(name: string)
    requires !ContainsAny(Lower(name), Unstable)
    ensures IsPrerelease(Clean(LStrip(name, {'g', 'o'}))) ==>
              Contains(Lower(name), "nightly") || Contains(Lower(name), "experimental")
  {
    var x := LStrip(name, {'g', 'o'});
    var v := Clean(x);
    if IsPrerelease(v) {
      var m := PrereleaseMarker(v);
      MarkerInName(name, m);
      NotFragment(Lower(name), m);
      EscapedMarker(m);
    }
  }

  /** A dot-free fragment of the parsed version already occurs in the lower-cased tag name. */
  lemma MarkerInName(name: string, m: string)
    requires '.' !in m && Contains(Clean(LStrip(name, {'g', 'o'})), m)
    ensures Contains(Lower(name), m)
  {
    var x := LStrip(name, {'g', 'o'});
    CleanContains(x, m);
    LowerSuffix(name, |name| - |x|);
    ContainsSlice(Lower(name), |name| - |x|, |name|, m);
  }

  lemma NotFragment(s: string, m: string)
    requires !ContainsAny(s, Unstable) && Contains(s, m)
    ensures m !in Unstable
  {
    forall j | 0 <= j < |Unstable| ensures Unstable[j] != m {
      assert !Contains(s, Unstable[j]);
    }
  }

  lemma EscapedMarker(m: string)
    requires m in PrereleaseMarkers && m !in Unstable
    ensures m == "nightly" || m == "experimental"
  {
  }
}
