/** The tag rules of the Rust fetcher (version/fetchers/rust.py). */
module RustTags {
  import opened Wrappers
  import opened Text
  import opened Utils
  import opened Base

  /** The fragments whose presence in the lower-cased name rejects a tag. */
  const Unstable: seq<string> := ["beta", "alpha", "rc", "nightly", "dev", "test", "pre"]

  /** `_is_stable_tag`: "1.…", exactly three '.'-separated parts, none of the fragments. */
  predicate IsStableTag(tag: Tag)
    ensures IsStableTag(tag) ==> |tag.name| >= 2 && tag.name[..2] == "1." && Count(tag.name, '.') == 2
  {
    StartsWith(tag.name, "1.") && |Split(tag.name, '.')| == 3 && !ContainsAny(Lower(tag.name), Unstable)
  }

  /** `rust_filter_func`, the same test written out a second time. */
  predicate FilterFunc(tag: Tag)
    ensures FilterFunc(tag) <==> IsStableTag(tag)
  {
    var name := tag.name;
    StartsWith(name, "1.") && |Split(name, '.')| == 3 && !ContainsAny(Lower(name), Unstable)
  }

  /**
   * `_parse_version_from_tag`: the whitespace-trimmed name, cleaned; `Err`
   * is the ParseError for a tag without a name.
   */
  function ParseTag(tag: Tag): (r: Result<ReleaseInfo>)
    ensures r.Err? <==> tag.name == ""
    ensures r.Err? ==> r.msg == "No tag name found"
    ensures r.Ok? ==> r.value.version == Clean(Strip(tag.name))
    ensures r.Ok? ==> r.value.additionalInfo == TagInfo(tag) && r.value.releaseDate.None?
    ensures r.Ok? ==> (r.value.prerelease <==> IsPrerelease(r.value.version))
  {
    if tag.name == "" then Err("No tag name found")
    else Ok(NewRelease(Strip(tag.name), None, false, TagInfo(tag), NoDate))
  }

  /** `_get_stability_criteria`: latest and stable are both the first release. */
  function Criteria(releases: seq<ReleaseInfo>): (r: Result<(ReleaseInfo, ReleaseInfo)>)
    ensures r.Err? <==> releases == []
    ensures r.Err? ==> r.msg == "No releases available"
    ensures r.Ok? ==> r.value.0 == releases[0] && r.value.1 == releases[0]
  {
    if releases == [] then Err("No releases available")
    else
      var latest := releases[0];
      var stable := latest;
      Ok((latest, stable))
  }

  /** The Rust rule is the default rule of the base fetcher. */
  lemma CriteriaIsDefault(releases: seq<ReleaseInfo>)
    ensures Criteria(releases) == DefaultCriteria(releases)
  {
  }

  /**
   * "snapshot" and "experimental" are prerelease markers the fragment list
   * leaves out ("preview" holds "pre"): an accepted tag parses to a
   * prerelease only through one of those two.
   */
  lemma AcceptedTagPrerelease(tag: Tag)
    requires IsStableTag(tag)
    ensures ParseTag(tag).Ok?
    ensures ParseTag(tag).value.prerelease ==>
              Contains(Lower(tag.name), "snapshot") || Contains(Lower(tag.name), "experimental")
  {
    PrereleaseEscapes(tag.name);
  }

  lemma PrereleaseEscapes(name: string)
    requires !ContainsAny(Lower(name), Unstable)
    ensures IsPrerelease(Clean(Strip(name))) ==>
              Contains(Lower(name), "snapshot") || Contains(Lower(name), "experimental")
  {
    var x := Strip(name);
    var v := Clean(x);
    if IsPrerelease(v) {
      var m := PrereleaseMarker(v);
      CleanContains(x, m);
      LowerStripContains(name, m);
      NoPreview(Lower(name));
      NotFragment(Lower(name), m);
      EscapedMarker(m);
    }
  }

  /** A name free of the fragments does not hold "preview", which holds "pre". */
  lemma NoPreview(s: string)
    requires !ContainsAny(s, Unstable)
    ensures !Contains(s, "preview")
  {
    assert !Contains(s, Unstable[6]);
    PreviewHoldsPre(s);
  }

  lemma PreviewHoldsPre(s: string)
    ensures Contains(s, "preview") ==> Contains(s, "pre")
  {
    assert Contains("preview", "pre") by { assert OccursAt("preview", "pre", 0); }
    if Contains(s, "preview") {
      ContainsTrans(s, "preview", "pre");
    }
  }

  lemma NotFragment(s: string, m: string)
    requires !ContainsAny(s, Unstable) && Contains(s, m)
    ensures m !in Unstable
  {
    forall j | 0 <= j < |Unstable| ensures Unstable[j] != m {
      assert !Contains(s, Unstable[j]);
    }
  }

  lemma EscapedMarker(m: string)
    requires m in PrereleaseMarkers && m !in Unstable && m != "preview"
    ensures m == "snapshot" || m == "experimental"
  {
  }
}
