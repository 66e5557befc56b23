/** The tag rules of the Ruby fetcher (version/fetchers/ruby.py). */
module RubyTags {
  import opened Wrappers
  import opened Text
  import opened Utils
  import opened Base
  import PrevMinor

  /** The fragments whose presence in the lower-cased name rejects a tag. */
  const Unstable: seq<string> := ["rc", "alpha", "beta", "preview", "pre", "test", "dev", "snapshot"]

  /** `_is_stable_tag`: "v…", exactly three '_'-separated parts, none of the fragments. */
  predicate IsStableTag(tag: Tag)
    ensures IsStableTag(tag) ==> |tag.name| > 0 && tag.name[0] == 'v' && Count(tag.name, '_') == 2
  {
    StartsWith(tag.name, "v") && |Split(tag.name, '_')| == 3 && !ContainsAny(Lower(tag.name), Unstable)
  }

  /** `ruby_filter_func`, the same test written out a second time. */
  predicate FilterFunc(tag: Tag)
    ensures FilterFunc(tag) <==> IsStableTag(tag)
  {
    var name := tag.name;
    StartsWith(name, "v") && |Split(name, '_')| == 3 && !ContainsAny(Lower(name), Unstable)
  }

  /**
   * `_parse_version_from_tag`: leading 'v's dropped, every '_' turned into
   * '.', then cleaned; `Err` is the ParseError for a tag without a name.
   */
  function ParseTag(tag: Tag): (r: Result<ReleaseInfo>)
    ensures r.Err? <==> tag.name == ""
    ensures r.Err? ==> r.msg == "No tag name found"
    ensures r.Ok? ==> r.value.version == Clean(ReplaceChar(LStrip(tag.name, {'v'}), '_', '.'))
    ensures r.Ok? ==> '_' !in r.value.version
    ensures r.Ok? ==> r.value.additionalInfo == TagInfo(tag) && r.value.releaseDate.None?
    ensures r.Ok? ==> (r.value.prerelease <==> IsPrerelease(r.value.version))
  {
    if tag.name == "" then Err("No tag name found")
    else Ok(NewRelease(ReplaceChar(LStrip(tag.name, {'v'}), '_', '.'), None, false, TagInfo(tag), NoDate))
  }

  /** `_get_stability_criteria`: the previous-minor rule. */
  function Criteria(releases: seq<ReleaseInfo>): (r: Result<(ReleaseInfo, ReleaseInfo)>)
    ensures r == PrevMinor.Criteria(releases)
    ensures r.Ok? ==> r.value.0 == releases[0] && r.value.1 in releases
  {
    PrevMinor.Criteria(releases)
  }

  /**
   * The fragment list leaves out "nightly" and "experimental", which are
   * prerelease markers: an accepted tag parses to a prerelease exactly
   * through one of those two.
   */
  lemma AcceptedTagPrerelease(tag: Tag)
    requires IsStableTag(tag)
    ensures ParseTag(tag).Ok?
    ensures ParseTag(tag).value.prerelease ==>
              Contains(Lower(tag.name), "nightly") || Contains(Lower(tag.name), "experimental")
  {
    PrereleaseEscapes(tag.name);
  }

  lemma PrereleaseEscapes(name: string)
    requires !ContainsAny(Lower(name), Unstable)
    ensures IsPrerelease(Clean(ReplaceChar(LStrip(name, {'v'}), '_', '.'))) ==>
              Contains(Lower(name), "nightly") || Contains(Lower(name), "experimental")
  {
    var v := Clean(ReplaceChar(LStrip(name, {'v'}), '_', '.'));
    if IsPrerelease(v) {
      var m := PrereleaseMarker(v);
      MarkerInName(name, m);
      NotFragment(Lower(name), m);
      EscapedMarker(m);
    }
  }

  lemma NotFragment(s: string, m: string)
    requires !ContainsAny(s, Unstable) && Contains(s, m)
    ensures m !in Unstable
  {
    forall j | 0 <= j < |Unstable| ensures Unstable[j] != m {
      assert !Contains(s, Unstable[j]);
    }
  }

  lemma EscapedMarker(m: string)
    requires m in PrereleaseMarkers && m !in Unstable
    ensures m == "nightly" || m == "experimental"
  {
  }

  /** A dot-free fragment of the parsed version already occurs in the lower-cased tag name. */
  lemma MarkerInName(name: string, m: string)
    requires '.' !in m
    requires Contains(Clean(ReplaceChar(LStrip(name, {'v'}), '_', '.')), m)
    ensures Contains(Lower(name), m)
  {
    var y := LStrip(name, {'v'});
    var x := ReplaceChar(y, '_', '.');
    CleanContains(x, m);
    LowerReplaceChar(y);
    ReplaceCharContains(Lower(y), m);
    LowerSuffix(name, |name| - |y|);
    ContainsSlice(Lower(name), |name| - |y|, |name|, m);
  }

  /** A name made of digit runs, '_', 'v' and the letters 'a' and 'b'. */
  predicate Plain(s: string)
  {
    forall i :: 0 <= i < |s| ==> IsDigit(s[i]) || s[i] in {'v', '_', 'a', 'b'}
  }

  /**
   * A letter after the last part is not a fragment: "v" + a + "_" + b + "_"
   * + c + "a" + d and its "b" variant are accepted for any digit runs.
   */
  lemma AcceptsLetterSuffix(a: string, b: string, c: string, letter: char, d: string)
    requires AllDigits(a) && AllDigits(b) && AllDigits(c) && AllDigits(d)
    requires letter == 'a' || letter == 'b'
    ensures IsStableTag(Tag("v" + a + "_" + b + "_" + c + [letter] + d, None, None, None))
  {
    var n1 := "v" + a;
    var n3 := n1 + "_" + b;
    var n5 := n3 + "_" + c;
    var name := n5 + [letter] + d;
    PlainJoin("v", a, '_');
    PlainJoin(n1, b, '_');
    PlainJoin(n3, c, '_');
    PlainJoin(n5, d, letter);
    PlainName(name);
    assert StartsWith(name, "v") by {
      assert name[..1] == n1[..1];
    }
  }

  /**
   * Joining a plain name, a plain separator and a digit run gives a plain
   * name, lower-case already, with one more '_' when the separator is one.
   */
  lemma PlainJoin(s: string, run: string, sep: char)
    requires Plain(s) && AllDigits(run) && sep in {'v', '_', 'a', 'b'}
    ensures Plain(s + [sep] + run)
    ensures Count(s + [sep] + run, '_') == Count(s, '_') + (if sep == '_' then 1 else 0)
    ensures Lower(s) == s ==> Lower(s + [sep] + run) == s + [sep] + run
  {
    var t := s + [sep] + run;
    assert forall i :: |s| + 1 <= i < |t| ==> t[i] == run[i - |s| - 1];
    CountConcat(s, [sep], '_');
    CountConcat(s + [sep], run, '_');
    CountAbsent(run, '_');
  }

  /** A plain name holds none of the fragments. */
  lemma PlainName(s: string)
    requires Plain(s)
    ensures !ContainsAny(s, Unstable)
  {
    assert 'r' !in s && 'l' !in s && 'e' !in s && 't' !in s && 's' !in s;
    CharAbsent(s, "rc", 'r');
    CharAbsent(s, "alpha", 'l');
    CharAbsent(s, "beta", 'e');
    CharAbsent(s, "preview", 'r');
    CharAbsent(s, "pre", 'r');
    CharAbsent(s, "test", 't');
    CharAbsent(s, "dev", 'e');
    CharAbsent(s, "snapshot", 's');
  }
}
