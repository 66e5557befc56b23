/**
 * Version-string helpers and the release records every fetcher produces
 * (version/core/utils.py).
 */
module Utils {
  import opened Wrappers
  import opened Text
  import opened Json

  // ------------------------------------------------------- clean_version

  /** The prefixes `clean_version` tries, in this order ("go" twice). */
  const Prefixes: seq<string> := ["v", "version", "python", "go", "node", "ruby", "rust", "go"]

  /** One pass over `ps`, dropping each prefix the string, as cleaned so far, starts with. */
  function DropPrefixes(s: string, ps: seq<string>): (r: string)
    ensures |r| <= |s| && r == s[|s| - |r|..]
  {
    if ps == [] then s
    else DropPrefixes(if StartsWith(s, ps[0]) then s[|ps[0]|..] else s, ps[1..])
  }

  /** `clean_version(version)` */
  function Clean(version: string): (r: string)
    ensures NoUpper(r)
    ensures '_' !in r
    ensures r == [] || (!IsSpace(r[0]) && !IsSpace(r[|r| - 1]))
  {
    var lowered := Lower(version);
    var dropped := DropPrefixes(lowered, Prefixes);
    var replaced := ReplaceChar(dropped, '_', '.');
    CleanShape(lowered, dropped, replaced);
    Strip(replaced)
  }

  /** The steps of `Clean` after lower-casing keep the string free of upper case and underscores. */
  lemma CleanShape(lowered: string, dropped: string, replaced: string)
    requires NoUpper(lowered) && |dropped| <= |lowered| && dropped == lowered[|lowered| - |dropped|..]
    requires replaced == ReplaceChar(dropped, '_', '.')
    ensures NoUpper(Strip(replaced)) && '_' !in Strip(replaced)
  {
    SliceClean(lowered, |lowered| - |dropped|, |lowered|);
    assert NoUpper(replaced) by {
      forall i | 0 <= i < |replaced| ensures !IsUpper(replaced[i]) {
        assert replaced[i] == if dropped[i] == '_' then '.' else dropped[i];
      }
    }
    var lo, hi := StripBounds(replaced);
    SliceClean(replaced, lo, hi);
  }

  /** A slice of a string without upper case has none either. */
  lemma SliceClean(s: string, lo: nat, hi: nat)
    requires lo <= hi <= |s| && NoUpper(s)
    ensures NoUpper(s[lo..hi]) && ('_' !in s ==> '_' !in s[lo..hi])
  {
    forall i | 0 <= i < hi - lo ensures !IsUpper(s[lo..hi][i]) {
      assert s[lo..hi][i] == s[lo + i];
    }
  }

  /** The loop of `clean_version`, reassigning `cleaned` once per prefix. */
  method CleanVersion(version: string) returns (cleaned: string)
    ensures cleaned == Clean(version)
    ensures NoUpper(cleaned) && '_' !in cleaned
  {
    cleaned := Lower(version);
    for i := 0 to |Prefixes|
      invariant DropPrefixes(cleaned, Prefixes[i..]) == DropPrefixes(Lower(version), Prefixes)
    {
      assert Prefixes[i..][1..] == Prefixes[i + 1..];
      var prefix := Prefixes[i];
      if StartsWith(cleaned, prefix) {
        cleaned := cleaned[|prefix|..];
      }
    }
    cleaned := ReplaceChar(cleaned, '_', '.');
    cleaned := Strip(cleaned);
  }

  lemma {:induction false} LowerOfLower(s: string)
    requires NoUpper(s)
    ensures Lower(s) == s
  {
  }

  lemma LowerSuffix(s: string, k: nat)
    requires k <= |s|
    ensures Lower(s[k..]) == Lower(s)[k..|s|]
  {
  }

  lemma LowerConcat(p: string, d: string)
    ensures Lower(p + d) == Lower(p) + Lower(d)
  {
  }

  /** None of the prefixes begins with a digit, so a digit-led string loses none. */
  lemma {:induction false} DropPrefixesDigit(s: string, ps: seq<string>)
    requires s != [] && IsDigit(s[0])
    requires forall k :: 0 <= k < |ps| ==> ps[k] != [] && !IsDigit(ps[k][0])
    ensures DropPrefixes(s, ps) == s
  {
    if ps != [] {
      NotStartsWith(s, ps[0], 0);
      DropPrefixesDigit(s, ps[1..]);
    }
  }

  lemma NotStartsWith(s: string, q: string, i: nat)
    requires i < |q| && i < |s| && s[i] != q[i]
    ensures !StartsWith(s, q)
  {
    if |q| <= |s| {
      assert s[..|q|][i] == s[i];
    }
  }

  /** What is left of a digit-led version once its prefix is gone. */
  function Tail(d: string): string
  {
    Strip(ReplaceChar(Lower(d), '_', '.'))
  }

  /**
   * A known language prefix in front of a version that starts with a digit
   * is removed, and only the underscore and whitespace rules remain:
   * "go1.2.3", "node1.2.3" and "ruby1.2.3" become "1.2.3", "v3_0_0" becomes "3.0.0".
   */
  lemma CleanKnownPrefix(p: string, d: string)
    requires p in ["v", "python", "go", "node", "ruby", "rust"]
    requires d != [] && IsDigit(d[0])
    ensures Clean(p + d) == Tail(d)
  {
    LowerConcat(p, d);
    assert Lower(p) == p;
    DropKnown(p, Lower(d));
  }

  lemma DropKnown(p: string, ld: string)
    requires p in ["v", "python", "go", "node", "ruby", "rust"]
    requires ld != [] && IsDigit(ld[0])
    ensures DropPrefixes(p + ld, Prefixes) == ld
  {
    if p == "v" || p == "python" || p == "go" {
      DropKnownEarly(p, ld);
    } else {
      DropKnownLate(p, ld);
    }
  }

  /** "v", "python" and "go": removed as the first, third and fourth prefix. */
  lemma DropKnownEarly(p: string, ld: string)
    requires p == "v" || p == "python" || p == "go"
    requires ld != [] && IsDigit(ld[0])
    ensures DropPrefixes(p + ld, Prefixes) == ld
  {
    var s := p + ld;
    assert s[0] == p[0];
    if p == "v" {
      DropAt(s, 0, ld);
    } else if p == "python" {
      Misses(s, 2, 0);
      DropAt(s, 2, ld);
    } else {
      assert p == Prefixes[3];
      Misses(s, 3, 0);
      DropAt(s, 3, ld);
    }
  }

  /** "node", "ruby" and "rust": removed as the fifth, sixth and seventh prefix. */
  lemma DropKnownLate(p: string, ld: string)
    requires p == "node" || p == "ruby" || p == "rust"
    requires ld != [] && IsDigit(ld[0])
    ensures DropPrefixes(p + ld, Prefixes) == ld
  {
    var s := p + ld;
    assert s[0] == p[0];
    if p == "node" {
      Misses(s, 4, 0);
      DropAt(s, 4, ld);
    } else if p == "ruby" {
      Misses(s, 5, 0);
      DropAt(s, 5, ld);
    } else {
      assert p == Prefixes[6] && s[2] == 's';
      Misses(s, 5, 0);
      NotStartsWith(s, Prefixes[5], 2);
      DropAt(s, 6, ld);
    }
  }

  /** A string whose character `i` differs from that of each of the first `k` prefixes starts with none of them. */
  lemma Misses(s: string, k: nat, i: nat)
    requires k <= |Prefixes| && i < |s|
    requires forall j :: 0 <= j < k ==> i < |Prefixes[j]| && s[i] != Prefixes[j][i]
    ensures forall j :: 0 <= j < k ==> !StartsWith(s, Prefixes[j])
  {
    forall j | 0 <= j < k ensures !StartsWith(s, Prefixes[j]) {
      NotStartsWith(s, Prefixes[j], i);
    }
  }

  /** The first prefix a digit-led string starts with is the only one removed. */
  lemma DropAt(s: string, k: nat, ld: string)
    requires k < |Prefixes| && s == Prefixes[k] + ld && ld != [] && IsDigit(ld[0])
    requires forall j :: 0 <= j < k ==> !StartsWith(s, Prefixes[j])
    ensures DropPrefixes(s, Prefixes) == ld
  {
    assert s[..|Prefixes[k]|] == Prefixes[k];
    DropPrefixSkip(s, Prefixes, k);
    assert s[|Prefixes[k]|..] == ld;
    PrefixesLetterLed();
    DropPrefixesDigit(ld, Prefixes[k + 1..]);
  }

  /** Every prefix starts with a letter. */
  lemma PrefixesLetterLed()
    ensures forall k :: 0 <= k < |Prefixes| ==> Prefixes[k] != [] && !IsDigit(Prefixes[k][0])
  {
  }

  lemma {:induction false} DropPrefixSkip(s: string, ps: seq<string>, k: nat)
    requires k < |ps|
    requires forall j :: 0 <= j < k ==> !StartsWith(s, ps[j])
    requires StartsWith(s, ps[k])
    ensures DropPrefixes(s, ps) == DropPrefixes(s[|ps[k]|..], ps[k + 1..])
  {
    if k > 0 {
      DropPrefixSkip(s, ps[1..], k - 1);
      assert ps[1..][k..] == ps[k + 1..];
    }
  }

  /**
   * "version" is never matched as a whole: "v" is tried first and removed,
   * so "version1.2.3" cleans to "ersion1.2.3".
   */
  lemma CleanVersionWord(d: string)
    requires d != [] && IsDigit(d[0])
    ensures Clean("version" + d) == "ersion" + Tail(d)
  {
    var ld := Lower(d);
    var x := ReplaceChar(ld, '_', '.');
    assert x != [] && !IsSpace(x[0]) by {
      assert x[0] == d[0];
    }
    calc {
      Clean("version" + d);
      Strip(ReplaceChar(DropPrefixes(Lower("version" + d), Prefixes), '_', '.'));
      { VersionWordDropped(d); }
      Strip(ReplaceChar("ersion" + ld, '_', '.'));
      { VersionWordReplaced(ld); }
      Strip("ersion" + x);
      { StripLeftAnchored("ersion", x); }
      "ersion" + Strip(x);
    }
  }

  lemma VersionWordDropped(d: string)
    requires d != [] && IsDigit(d[0])
    ensures DropPrefixes(Lower("version" + d), Prefixes) == "ersion" + Lower(d)
  {
    LowerConcat("version", d);
    assert Lower("version") == "version";
    DropVersionWord(Lower(d));
  }

  lemma VersionWordReplaced(ld: string)
    ensures ReplaceChar("ersion" + ld, '_', '.') == "ersion" + ReplaceChar(ld, '_', '.')
  {
    ReplaceCharConcat("ersion", ld, '_', '.');
    assert ReplaceChar("ersion", '_', '.') == "ersion";
  }

  /** Lower-casing commutes with turning underscores into dots. */
  lemma LowerReplaceChar(u: string)
    ensures Lower(ReplaceChar(u, '_', '.')) == ReplaceChar(Lower(u), '_', '.')
  {
    var l := Lower(ReplaceChar(u, '_', '.'));
    var r := ReplaceChar(Lower(u), '_', '.');
    forall i | 0 <= i < |u| ensures l[i] == r[i] {
      assert LowerChar('_') == '_' && LowerChar('.') == '.';
    }
  }

  lemma ReplaceCharConcat(u: string, v: string, a: char, b: char)
    ensures ReplaceChar(u + v, a, b) == ReplaceChar(u, a, b) + ReplaceChar(v, a, b)
  {
  }

  lemma DropVersionWord(ld: string)
    requires ld != [] && IsDigit(ld[0])
    ensures DropPrefixes("version" + ld, Prefixes) == "ersion" + ld
  {
    var s := "version" + ld;
    assert StartsWith(s, Prefixes[0]);
    var t := s[1..];
    assert t == "ersion" + ld;
    forall j | 1 <= j < |Prefixes|
      ensures !StartsWith(t, Prefixes[j])
    {
      NotStartsWith(t, Prefixes[j], 0);
    }
    DropPrefixSkip(s, Prefixes, 0);
    NoPrefixMatches(t, Prefixes[1..]);
  }

  lemma {:induction false} NoPrefixMatches(s: string, ps: seq<string>)
    requires forall j :: 0 <= j < |ps| ==> !StartsWith(s, ps[j])
    ensures DropPrefixes(s, ps) == s
  {
    if ps != [] {
      NoPrefixMatches(s, ps[1..]);
    }
  }

  /** `strip()` of non-blank text followed by text that starts non-blank. */
  lemma StripLeftAnchored(w: string, x: string)
    requires w != [] && forall i :: 0 <= i < |w| ==> !IsSpace(w[i])
    requires x != [] && !IsSpace(x[0])
    ensures Strip(w + x) == w + Strip(x)
  {
    assert LStripBy(w + x, IsSpace) == w + x;
    assert LStripBy(x, IsSpace) == x;
    RStripAfter(w, x);
  }

  lemma {:induction false} RStripAfter(w: string, x: string)
    requires w != [] && !IsSpace(w[|w| - 1])
    ensures RStripBy(w + x, IsSpace) == w + RStripBy(x, IsSpace)
  {
    if x != [] && IsSpace(x[|x| - 1]) {
      assert (w + x)[..|w + x| - 1] == w + x[..|x| - 1];
      RStripAfter(w, x[..|x| - 1]);
    } else if x == [] {
      assert w + x == w;
    }
  }

  /**
   * Cleaning adds no text: a dot-free fragment of the cleaned version
   * already occurs in the lower-cased input.
   */
  lemma CleanContains(x: string, m: string)
    requires '.' !in m
    ensures Contains(Clean(x), m) ==> Contains(Lower(x), m)
  {
    if Contains(Clean(x), m) {
      var lowered := Lower(x);
      var dropped := DropPrefixes(lowered, Prefixes);
      var replaced := ReplaceChar(dropped, '_', '.');
      StripContains(replaced, m);
      ReplaceCharContains(dropped, m);
      DropContains(lowered, m);
    }
  }

  /** Dropping prefixes adds no text. */
  lemma DropContains(s: string, m: string)
    requires Contains(DropPrefixes(s, Prefixes), m)
    ensures Contains(s, m)
  {
    var dropped := DropPrefixes(s, Prefixes);
    assert dropped == s[|s| - |dropped|..|s|];
    ContainsSlice(s, |s| - |dropped|, |s|, m);
  }

  lemma ReplaceCharContains(u: string, m: string)
    requires '.' !in m && Contains(ReplaceChar(u, '_', '.'), m)
    ensures Contains(u, m)
  {
    var r := ReplaceChar(u, '_', '.');
    var i :| 0 <= i <= |r| - |m| && OccursAt(r, m, i);
    forall j | 0 <= j < |m|
      ensures u[i + j] == m[j]
    {
      assert r[i..i + |m|][j] == m[j];
      assert m[j] != '.';
    }
    assert u[i..i + |m|] == m;
    assert OccursAt(u, m, i);
  }

  // ------------------------------------------------------- parse_semver

  /** `parse_semver(version)`; `Err` is the ValueError it raises. */
  function ParseSemver(version: string): (r: Result<(nat, nat, nat)>)
    ensures r.Ok? <==> TripleSplit(Clean(version)).Some?
    ensures r.Err? ==> r.msg == "Invalid version format: " + Clean(version)
  {
    match MatchTriple(Clean(version))
    case Some(t) => Ok(t)
    case None => Err("Invalid version format: " + Clean(version))
  }

  /**
   * The pattern is anchored only at the start: whatever follows the third
   * number is ignored, so "1.2.3.4" parses as (1, 2, 3).
   */
  lemma ParseSemverOf(version: string, a: string, b: string, c: string, rest: string)
    requires Clean(version) == a + "." + b + "." + c + rest
    requires IsTriple(a, b, c, rest)
    ensures ParseSemver(version) == Ok((DigitsValue(a), DigitsValue(b), DigitsValue(c)))
  {
    TripleSplitOf(a, b, c, rest);
  }

  // ------------------------------------------------------ is_prerelease

  const PrereleaseMarkers: seq<string> :=
    ["alpha", "beta", "rc", "dev", "preview", "pre", "nightly", "snapshot", "test", "experimental"]

  /**
   * `is_prerelease(version)`: some marker occurs in the lower-cased
   * version, so a version of digits and dots alone is never a prerelease.
   */
  predicate IsPrerelease(version: string)
    ensures Numeric(version) ==> !IsPrerelease(version)
  {
    NumericHasNoMarker(version);
    ContainsAny(Lower(version), PrereleaseMarkers)
  }

  /** Digits and dots only. */
  predicate Numeric(version: string)
  {
    forall i :: 0 <= i < |version| ==> IsDigit(version[i]) || version[i] == '.'
  }

  /** Every marker begins with a letter, which a numeric version lacks. */
  lemma NumericHasNoMarker(version: string)
    ensures Numeric(version) ==> !ContainsAny(Lower(version), PrereleaseMarkers)
  {
    if Numeric(version) {
      var low := Lower(version);
      forall k | 0 <= k < |PrereleaseMarkers|
        ensures !Contains(low, PrereleaseMarkers[k])
      {
        var m := PrereleaseMarkers[k];
        assert 'a' <= m[0] <= 'z';
        assert m[0] !in low;
        CharAbsent(low, m, m[0]);
      }
    }
  }

  /** A prerelease version holds one of the markers, as a dot-free substring. */
  lemma PrereleaseMarker(version: string) returns (m: string)
    requires IsPrerelease(version) && NoUpper(version)
    ensures m in PrereleaseMarkers && '.' !in m && Contains(version, m)
  {
    LowerOfLower(version);
    var k :| 0 <= k < |PrereleaseMarkers| && Contains(version, PrereleaseMarkers[k]);
    m := PrereleaseMarkers[k];
  }

  // --------------------------------------------------- standardize_date

  /**
   * The None guard of `standardize_date`; the date formats it tries are
   * the oracle `parseDate`.
   */
  function StandardizeDate(date: Option<string>, parseDate: string -> Option<string>): (r: Option<string>)
    ensures (date.None? || date == Some("")) ==> r.None?
    ensures date.Some? && date.value != "" ==> r == parseDate(date.value)
  {
    if date.None? || date.value == "" then None else parseDate(date.value)
  }

  // --------------------------------------------------------- records

  /** A `ReleaseInfo` after `__post_init__` has normalised it. */
  datatype ReleaseInfo = ReleaseInfo(
    version: string,
    releaseDate: Option<string>,
    prerelease: bool,
    additionalInfo: map<string, Json>)

  /** `ReleaseInfo(version, release_date, prerelease, additional_info)` */
  function NewRelease(version: string, releaseDate: Option<string>, prerelease: bool,
                      additionalInfo: map<string, Json>,
                      parseDate: string -> Option<string>): (r: ReleaseInfo)
    ensures r.version == Clean(version)
    ensures r.prerelease <==> prerelease || IsPrerelease(r.version)
    ensures prerelease ==> r.prerelease
    ensures r.releaseDate == StandardizeDate(releaseDate, parseDate)
    ensures r.additionalInfo == additionalInfo
  {
    var v := Clean(version);
    ReleaseInfo(v, StandardizeDate(releaseDate, parseDate),
                if !prerelease then IsPrerelease(v) else prerelease, additionalInfo)
  }

  /** `vars(release)`: the dictionary a release is stored as. */
  function ReleaseJson(r: ReleaseInfo): (j: Json)
    ensures j.JObj? && "version" in j.fields && j.fields["version"] == JStr(r.version)
  {
    JObj(map["version" := JStr(r.version),
             "release_date" := OptStr(r.releaseDate),
             "prerelease" := JBool(r.prerelease),
             "additional_info" := JObj(r.additionalInfo)])
  }

  /** `VersionInfo`: the aggregate a fetcher returns. */
  datatype VersionInfo = VersionInfo(
    latest: Option<string>,
    stable: Option<string>,
    recentReleases: seq<ReleaseInfo>,
    details: map<string, Json>)

  /** The `details` of a fetch that failed with an exception. */
  function ErrorDetails(error: string, errorType: string): map<string, Json>
  {
    map["error" := JStr(error), "error_type" := JStr(errorType)]
  }
}
