/** The tag rules of the Python fetcher (version/fetchers/python.py). */
module PythonTags {
  import opened Wrappers
  import opened Text
  import opened Utils
  import opened Base
  import PrevMinor

  /** The fragments whose presence in the lower-cased name rejects a tag. */
  const Unstable: seq<string> :=
    ["a", "rc", "b", "beta", "alpha", "pre", "preview", "dev", "test", "nightly", "snapshot"]

  /**
   * `_is_stable_tag`: "v3…" or "v4…" with none of the fragments. As "a"
   * and "b" are fragments, a name with either letter in it is rejected.
   */
  predicate IsStableTag(tag: Tag)
    ensures IsStableTag(tag) ==> 'a' !in Lower(tag.name) && 'b' !in Lower(tag.name)
  {
    var ok := (StartsWith(tag.name, "v3") || StartsWith(tag.name, "v4"))
              && !ContainsAny(Lower(tag.name), Unstable);
    if ok then
      assert !Contains(Lower(tag.name), Unstable[0]) && !Contains(Lower(tag.name), Unstable[2]);
      CharNotIn(Lower(tag.name), 'a');
      CharNotIn(Lower(tag.name), 'b');
      ok
    else ok
  }

  /** `re.search(r"\d+\.(a|rc|…)", s)`: a digit, a dot, then one of the fragments. */
  predicate DigitDotMarker(s: string)
  {
    exists i, k | 1 <= i < |s| && 0 <= k < |Unstable| ::
      IsDigit(s[i - 1]) && s[i] == '.' && OccursAt(s, Unstable[k], i + 1)
  }

  /**
   * `python_filter_func`, with its two regular-expression searches. It
   * accepts exactly what `_is_stable_tag` accepts: the first search finds a
   * fragment only where the second finds it too.
   */
  predicate FilterFunc(tag: Tag)
    ensures FilterFunc(tag) <==> IsStableTag(tag)
  {
    var lowered := Lower(tag.name);
    MarkerAfterDot(lowered);
    (StartsWith(tag.name, "v3") || StartsWith(tag.name, "v4"))
    && !DigitDotMarker(lowered)
    && !ContainsAny(lowered, Unstable)
  }

  lemma MarkerAfterDot(s: string)
    ensures DigitDotMarker(s) ==> ContainsAny(s, Unstable)
  {
    if DigitDotMarker(s) {
      var i, k :| 1 <= i < |s| && 0 <= k < |Unstable| &&
                  IsDigit(s[i - 1]) && s[i] == '.' && OccursAt(s, Unstable[k], i + 1);
      assert Contains(s, Unstable[k]);
    }
  }

  /** `_parse_version_from_tag`; `Err` is the ParseError for a tag without a name. */
  function ParseTag(tag: Tag): (r: Result<ReleaseInfo>)
    ensures r.Err? <==> tag.name == ""
    ensures r.Err? ==> r.msg == "No tag name found"
    ensures r.Ok? ==> r.value.version == Clean(LStrip(tag.name, {'v'}))
    ensures r.Ok? ==> r.value.additionalInfo == TagInfo(tag) && r.value.releaseDate.None?
    ensures r.Ok? ==> (r.value.prerelease <==> IsPrerelease(r.value.version))
  {
    if tag.name == "" then Err("No tag name found")
    else Ok(NewRelease(LStrip(tag.name, {'v'}), None, false, TagInfo(tag), NoDate))
  }

  /** `_get_stability_criteria`: the previous-minor rule. */
  function Criteria(releases: seq<ReleaseInfo>): (r: Result<(ReleaseInfo, ReleaseInfo)>)
    ensures r == PrevMinor.Criteria(releases)
    ensures r.Ok? ==> r.value.0 == releases[0] && r.value.1 in releases
  {
    PrevMinor.Criteria(releases)
  }

  /** Every prerelease marker contains one of the rejected fragments. */
  lemma MarkersCovered(v: string, k: nat)
    requires k < |PrereleaseMarkers| && Contains(v, PrereleaseMarkers[k])
    ensures ContainsAny(v, Unstable)
  {
    var m := PrereleaseMarkers[k];
    var j: nat := if m == "alpha" || m == "snapshot" || m == "experimental" then 0
                  else if m == "beta" then 2 else if m == "rc" then 1
                  else if m == "dev" then 7 else if m == "preview" then 6
                  else if m == "pre" then 5 else if m == "nightly" then 9 else 8;
    assert j < |Unstable|;
    if j == 0 {
      var at: nat := if m == "alpha" then 0 else if m == "snapshot" then 2 else 10;
      assert OccursAt(m, "a", at);
    } else if j == 2 {
      assert OccursAt(m, "b", 0);
    } else {
      assert Unstable[j] == m;
      assert OccursAt(m, m, 0);
    }
    assert Contains(m, Unstable[j]);
    ContainsTrans(v, m, Unstable[j]);
  }

  /** A tag the Python filter accepts always parses, to a release that is not a prerelease. */
  lemma AcceptedTagIsStableRelease(tag: Tag)
    requires IsStableTag(tag)
    ensures ParseTag(tag).Ok? && !ParseTag(tag).value.prerelease
  {
    PrereleaseNeedsFragment(tag.name);
  }

  /** A version cleaned from a name is a prerelease only if the name holds a rejected fragment. */
  lemma PrereleaseNeedsFragment(name: string)
    ensures IsPrerelease(Clean(LStrip(name, {'v'}))) ==> ContainsAny(Lower(name), Unstable)
  {
    var x := LStrip(name, {'v'});
    var v := Clean(x);
    if IsPrerelease(v) {
      LowerOfLower(v);
      assert ContainsAny(v, PrereleaseMarkers);
      var k :| 0 <= k < |PrereleaseMarkers| && Contains(v, PrereleaseMarkers[k]);
      MarkersCovered(v, k);
      var j :| 0 <= j < |Unstable| && Contains(v, Unstable[j]);
      FragmentInName(name, x, j);
    }
  }

  lemma FragmentInName(name: string, x: string, j: nat)
    requires x == LStrip(name, {'v'}) && j < |Unstable| && Contains(Clean(x), Unstable[j])
    ensures ContainsAny(Lower(name), Unstable)
  {
    var m := Unstable[j];
    var k := |name| - |x|;
    NoDot(j);
    CleanContains(x, m);
    assert x == name[k..];
    LowerSuffix(name, k);
    ContainsSlice(Lower(name), k, |name|, m);
    assert Contains(Lower(name), Unstable[j]);
  }

  lemma NoDot(j: nat)
    requires j < |Unstable|
    ensures '.' !in Unstable[j]
  {
  }
}
