/**
 * `generate_version_template` of cache_version_info.py: the projection of
 * the cache document onto a version template. Writing the template file is
 * not part of this model; the result is the template document, or `None`
 * where the function raises (a version that is not a string, or two
 * version keys Python cannot compare).
 */
module Template {
  import opened Wrappers
  import opened Json
  import opened Text
  import opened SortKey
  import opened CacheDoc

  const DefaultOs: seq<string> := ["ubuntu-latest", "windows-latest", "macos-latest"]
  const DefaultGhpagesBranch: string := "ghpages"

  // ------------------------------------------------- one language's list

  /** The versions of the well-formed releases, each kept at its first occurrence. */
  function ReleaseVersions(rs: seq<Json>): (vs: seq<Json>)
    ensures NoDup(vs)
    ensures forall v :: v in vs <==> v in ExistingVersions(rs)
  {
    if rs == [] then []
    else
      var init := rs[..|rs| - 1];
      var last := rs[|rs| - 1];
      assert rs == init + [last];
      var vs := ReleaseVersions(init);
      if last.JObj? && "version" in last.fields && last.fields["version"] !in vs then vs + [last.fields["version"]]
      else vs
  }

  /** The list before sorting: release versions, then a truthy stable and latest put in front when missing. */
  function Candidates(info: map<string, Json>): (c: seq<Json>)
    ensures NoDup(c)
    ensures forall v :: v in c <==>
      || v in ExistingVersions(ReleasesOf(info))
      || (Truthy(Get(info, "stable")) && v == Get(info, "stable"))
      || (Truthy(Get(info, "latest")) && v == Get(info, "latest"))
  {
    var vs := ReleaseVersions(ReleasesOf(info));
    var stable := Get(info, "stable");
    var latest := Get(info, "latest");
    var withStable := if Truthy(stable) && stable !in vs then [stable] + vs else vs;
    if Truthy(latest) && latest !in withStable && latest != stable then [latest] + withStable else withStable
  }

  predicate AllStr(c: seq<Json>)
  {
    forall i :: 0 <= i < |c| ==> c[i].JStr?
  }

  function Strs(c: seq<Json>): (ss: seq<string>)
    requires AllStr(c)
    ensures |ss| == |c| && forall i :: 0 <= i < |c| ==> c[i] == JStr(ss[i])
  {
    seq(|c|, i requires 0 <= i < |c| => c[i].s)
  }

  /**
   * `sorted(list(set(versions)), reverse=desc, key=...)`: `None` where the
   * key function meets a non-string or two keys cannot be compared.
   */
  function SortedVersions(info: map<string, Json>, desc: bool): (r: Option<seq<string>>)
    ensures r.None? <==> !AllStr(Candidates(info)) || !AllComparable(Strs(Candidates(info)), NumericFirstKey)
    ensures r.Some? ==>
      && SortedBy(r.value, NumericFirstKey, desc)
      && NoDup(r.value)
      && forall v :: v in r.value <==> JStr(v) in Candidates(info)
  {
    var c := Candidates(info);
    if !AllStr(c) then None
    else
      var ss := Strs(c);
      if !AllComparable(ss, NumericFirstKey) then None
      else
        SortedStrs(c, desc);
        Some(SortBy(ss, NumericFirstKey, desc))
  }

  /** Sorting the strings of distinct string values gives each of them exactly once. */
  lemma SortedStrs(c: seq<Json>, desc: bool)
    requires AllStr(c) && NoDup(c)
    ensures var sorted := SortBy(Strs(c), NumericFirstKey, desc);
      NoDup(sorted) && forall v :: v in sorted <==> JStr(v) in c
  {
    var ss := Strs(c);
    var sorted := SortBy(ss, NumericFirstKey, desc);
    NoDupStrs(c);
    PermutationNoDup(ss, sorted);
    forall v
      ensures v in sorted <==> JStr(v) in c
    {
      assert v in sorted <==> v in multiset(sorted);
      assert v in ss <==> v in multiset(ss);
    }
  }

  lemma NoDupStrs(c: seq<Json>)
    requires AllStr(c) && NoDup(c)
    ensures NoDup(Strs(c))
  {
  }

  // ------------------------------------------------- the existing template

  /**
   * The entry a language without cached releases gets: the existing
   * template's list when `keep_existing` and it has one, else `[]`; `None`
   * where the membership test or the lookup raises.
   */
  function Existing(existing: Doc, keepExisting: bool, language: string): (r: Option<Json>)
    ensures (keepExisting && "versions" in existing && existing["versions"].JObj? &&
             language in existing["versions"].fields) ==> r == Some(existing["versions"].fields[language])
    ensures !keepExisting || existing == map[] || "versions" !in existing ==> r == Some(JArr([]))
    ensures r.Some? && r != Some(JArr([])) ==>
              "versions" in existing && existing["versions"].JObj? && language in existing["versions"].fields
  {
    if keepExisting && existing != map[] && "versions" in existing then
      match existing["versions"]
      case JObj(m) => if language in m then Some(m[language]) else Some(JArr([]))
      case JArr(items) => if JStr(language) in items then None else Some(JArr([]))
      case JStr(s) => if Contains(s, language) then None else Some(JArr([]))
      case _ => None
    else Some(JArr([]))
  }

  /** Whether the language's cache entry has releases (`info["recent_releases"]` truthy). */
  predicate HasReleases(info: map<string, Json>)
  {
    "recent_releases" in info && Truthy(info["recent_releases"])
  }

  /** The template's list for one cached language, or `None` where computing it raises. */
  function EntryFor(info: map<string, Json>, existing: Doc, keepExisting: bool, language: string, desc: bool)
    : (r: Option<Json>)
    ensures HasReleases(info) ==>
      r == (match SortedVersions(info, desc) case None => None case Some(vs) => Some(StrList(vs)))
    ensures !HasReleases(info) ==> r == Existing(existing, keepExisting, language)
  {
    if HasReleases(info) then
      match SortedVersions(info, desc)
      case None => None
      case Some(vs) => Some(StrList(vs))
    else Existing(existing, keepExisting, language)
  }

  // ------------------------------------------------- the whole template

  /** `if languages and language not in languages: continue` */
  predicate Selected(language: string, filter: Option<seq<string>>)
  {
    filter.None? || filter.value == [] || language in filter.value
  }

  /** The cached languages the template lists. */
  function SelectedLanguages(cache: Doc, filter: Option<seq<string>>): (ls: set<string>)
    ensures forall l :: l in ls <==> l in Languages(cache) && Selected(l, filter)
  {
    set l | l in Languages(cache) && Selected(l, filter)
  }

  /** `template["os"]` and `template["ghpages_branch"]`: the existing file's value, else the default. */
  function Preserved(existing: Doc, key: string, default: Json): (j: Json)
    ensures key in existing ==> j == existing[key]
    ensures key !in existing ==> j == default
  {
    if key in existing then existing[key] else default
  }

  /** Every selected language gets a list without raising. */
  predicate AllListed(cache: Doc, existing: Doc, filter: Option<seq<string>>, keepExisting: bool, desc: bool)
    requires Shaped(cache)
  {
    forall l :: l in SelectedLanguages(cache, filter) ==>
      EntryFor(EntryOf(cache, l), existing, keepExisting, l, desc).Some?
  }

  /**
   * The template `generate_version_template` writes; `existing` is the
   * existing template as loaded, `{}` when there is none or it did not load.
   */
  function VersionTemplate(cache: Doc, existing: Doc, filter: Option<seq<string>>, keepExisting: bool,
                           sortOrder: string): (r: Option<Doc>)
    requires Shaped(cache)
    ensures var desc := Lower(sortOrder) == "desc";
      r.Some? <==> AllListed(cache, existing, filter, keepExisting, desc)
    ensures r.Some? ==>
      && r.value.Keys == {"os", "versions", "ghpages_branch"}
      && r.value["os"] == Preserved(existing, "os", StrList(DefaultOs))
      && r.value["ghpages_branch"] == Preserved(existing, "ghpages_branch", JStr(DefaultGhpagesBranch))
      && r.value["versions"].JObj?
      && r.value["versions"].fields.Keys == SelectedLanguages(cache, filter)
  {
    var desc := Lower(sortOrder) == "desc";
    if !AllListed(cache, existing, filter, keepExisting, desc) then None
    else
      Some(map["os" := Preserved(existing, "os", StrList(DefaultOs)),
               "versions" := JObj(Lists(cache, existing, filter, keepExisting, desc)),
               "ghpages_branch" := Preserved(existing, "ghpages_branch", JStr(DefaultGhpagesBranch))])
  }

  /** `template["versions"]`: each selected language's list. */
  function Lists(cache: Doc, existing: Doc, filter: Option<seq<string>>, keepExisting: bool, desc: bool)
    : (m: map<string, Json>)
    requires Shaped(cache) && AllListed(cache, existing, filter, keepExisting, desc)
    ensures m.Keys == SelectedLanguages(cache, filter)
    ensures forall l :: l in m ==> Some(m[l]) == EntryFor(EntryOf(cache, l), existing, keepExisting, l, desc)
  {
    map l | l in SelectedLanguages(cache, filter) :: EntryFor(EntryOf(cache, l), existing, keepExisting, l, desc).value
  }

  /** `generate_version_template`, its loops included; the result is the document it writes. */
  method GenerateVersionTemplate(cache: Doc, existing: Doc, filter: Option<seq<string>>, keepExisting: bool,
                                 sortOrder: string) returns (r: Option<Doc>)
    requires Shaped(cache)
    ensures r == VersionTemplate(cache, existing, filter, keepExisting, sortOrder)
  {
    var os := StrList(DefaultOs);
    var branch := JStr(DefaultGhpagesBranch);
    if "os" in existing {
      os := existing["os"];
    }
    if "ghpages_branch" in existing {
      branch := existing["ghpages_branch"];
    }
    var desc := Lower(sortOrder) == "desc";
    var versions := ListAll(cache, existing, filter, keepExisting, desc);
    if versions.None? {
      return None;
    }
    r := Some(map["os" := os, "versions" := JObj(versions.value), "ghpages_branch" := branch]);
  }

  /** The loop over the cached languages; `None` where one of them raises. */
  method ListAll(cache: Doc, existing: Doc, filter: Option<seq<string>>, keepExisting: bool, desc: bool)
    returns (r: Option<map<string, Json>>)
    requires Shaped(cache)
    ensures r.Some? <==> AllListed(cache, existing, filter, keepExisting, desc)
    ensures r.Some? ==> r.value == Lists(cache, existing, filter, keepExisting, desc)
  {
    var languages := if "languages" in cache then cache["languages"].fields else map[];
    assert languages == Languages(cache);
    var remaining := languages.Keys;
    var versions: map<string, Json> := map[];
    while remaining != {}
      invariant remaining <= languages.Keys
      invariant ListedSoFar(cache, existing, filter, keepExisting, desc, versions, remaining)
      decreases remaining
    {
      var language :| language in remaining;
      remaining := remaining - {language};
      if !Selected(language, filter) {
        continue;
      }
      var info := languages[language].fields;
      assert info == EntryOf(cache, language);
      var entry := ListFor(info, existing, keepExisting, language, desc);
      if entry.None? {
        RaisingLanguage(cache, existing, filter, keepExisting, desc, language);
        return None;
      }
      versions := versions[language := entry.value];
    }
    ListedAll(cache, existing, filter, keepExisting, desc, versions);
    r := Some(versions);
  }

  /** The lists of the selected languages outside `remaining`, as the loop has built them. */
  ghost predicate ListedSoFar(cache: Doc, existing: Doc, filter: Option<seq<string>>, keepExisting: bool, desc: bool,
                              versions: map<string, Json>, remaining: set<string>)
    requires Shaped(cache)
  {
    && (forall l :: l in versions <==> l in SelectedLanguages(cache, filter) && l !in remaining)
    && (forall l :: l in versions ==>
          EntryFor(EntryOf(cache, l), existing, keepExisting, l, desc) == Some(versions[l]))
  }

  /** A selected language whose list raises makes the whole template raise. */
  lemma RaisingLanguage(cache: Doc, existing: Doc, filter: Option<seq<string>>, keepExisting: bool, desc: bool,
                        language: string)
    requires Shaped(cache) && language in Languages(cache) && Selected(language, filter)
    requires EntryFor(EntryOf(cache, language), existing, keepExisting, language, desc).None?
    ensures !AllListed(cache, existing, filter, keepExisting, desc)
  {
    assert language in SelectedLanguages(cache, filter);
  }

  /** Once every language is done, the lists built are the template's lists. */
  lemma ListedAll(cache: Doc, existing: Doc, filter: Option<seq<string>>, keepExisting: bool, desc: bool,
                  versions: map<string, Json>)
    requires Shaped(cache) && ListedSoFar(cache, existing, filter, keepExisting, desc, versions, {})
    ensures AllListed(cache, existing, filter, keepExisting, desc)
    ensures versions == Lists(cache, existing, filter, keepExisting, desc)
  {
    var m := Lists(cache, existing, filter, keepExisting, desc);
    assert versions.Keys == m.Keys;
    forall l | l in m
      ensures versions[l] == m[l]
    {
    }
  }

  /** The body of the language loop: collect, put stable and latest in front, sort. */
  method ListFor(info: map<string, Json>, existing: Doc, keepExisting: bool, language: string, desc: bool)
    returns (r: Option<Json>)
    ensures r == EntryFor(info, existing, keepExisting, language, desc)
  {
    if "recent_releases" in info && Truthy(info["recent_releases"]) {
      var versions := CollectVersions(ReleasesOf(info));
      var stable := Get(info, "stable");
      var latest := Get(info, "latest");
      if Truthy(stable) && stable !in versions {
        versions := [stable] + versions;
      }
      if Truthy(latest) && latest !in versions {
        if latest != stable {
          versions := [latest] + versions;
        }
      }
      assert versions == Candidates(info);
      var sorted := SortedVersions(info, desc);
      if sorted.None? {
        return None;
      }
      return Some(StrList(sorted.value));
    }
    return Existing(existing, keepExisting, language);
  }

  /** The loop over `recent_releases` that keeps each well-formed version once. */
  method CollectVersions(rs: seq<Json>) returns (versions: seq<Json>)
    ensures versions == ReleaseVersions(rs)
  {
    versions := [];
    for i := 0 to |rs|
      invariant versions == ReleaseVersions(rs[..i])
    {
      assert rs[..i + 1][..i] == rs[..i];
      var release := rs[i];
      if release.JObj? && "version" in release.fields {
        if release.fields["version"] !in versions {
          versions := versions + [release.fields["version"]];
        }
      }
    }
    assert rs[..|rs|] == rs;
  }

  /**
   * A cached language with releases gets its release versions plus a
   * truthy stable and latest, each once, sorted by the numeric-first key in
   * the requested direction; one without keeps the existing list or gets `[]`.
   */
  lemma TemplateList(cache: Doc, existing: Doc, filter: Option<seq<string>>, keepExisting: bool,
                     sortOrder: string, language: string)
    requires Shaped(cache)
    requires VersionTemplate(cache, existing, filter, keepExisting, sortOrder).Some?
    requires language in Languages(cache) && Selected(language, filter)
    ensures var t := VersionTemplate(cache, existing, filter, keepExisting, sortOrder).value;
            var info := EntryOf(cache, language);
            var desc := Lower(sortOrder) == "desc";
      && language in t["versions"].fields
      && (HasReleases(info) ==>
            exists vs: seq<string> ::
              && t["versions"].fields[language] == StrList(vs)
              && SortedBy(vs, NumericFirstKey, desc)
              && NoDup(vs)
              && forall v :: v in vs <==>
                   || JStr(v) in ExistingVersions(ReleasesOf(info))
                   || (Truthy(Get(info, "stable")) && JStr(v) == Get(info, "stable"))
                   || (Truthy(Get(info, "latest")) && JStr(v) == Get(info, "latest")))
      && (!HasReleases(info) ==>
            Some(t["versions"].fields[language]) == Existing(existing, keepExisting, language))
  {
    var t := VersionTemplate(cache, existing, filter, keepExisting, sortOrder).value;
    var info := EntryOf(cache, language);
    var desc := Lower(sortOrder) == "desc";
    assert language in SelectedLanguages(cache, filter);
    var e := EntryFor(info, existing, keepExisting, language, desc);
    assert Some(t["versions"].fields[language]) == e;
    if HasReleases(info) {
      var vs := SortedVersions(info, desc).value;
      assert t["versions"].fields[language] == StrList(vs);
    }
  }

  // ------------------------------------------------- permutations

  /** A duplicate-free list holds each element once. */
  lemma {:induction false} NoDupCount<T>(s: seq<T>, x: T)
    requires NoDup(s)
    ensures multiset(s)[x] <= 1
  {
    if s != [] {
      assert s == [s[0]] + s[1..];
      assert NoDup(s[1..]) by {
        forall i, j | 0 <= i < j < |s[1..]| ensures s[1..][i] != s[1..][j] {
          assert s[1..][i] == s[i + 1] && s[1..][j] == s[j + 1];
        }
      }
      NoDupCount(s[1..], x);
      if s[0] == x {
        assert x !in s[1..] by {
          forall k | 0 <= k < |s[1..]| ensures s[1..][k] != x {
            assert s[1..][k] == s[k + 1];
          }
        }
      }
    }
  }

  /** A permutation of a duplicate-free list is duplicate-free. */
  lemma PermutationNoDup<T>(s: seq<T>, r: seq<T>)
    requires NoDup(s) && multiset(r) == multiset(s)
    ensures NoDup(r)
  {
    forall i, j | 0 <= i < j < |r| ensures r[i] != r[j] {
      if r[i] == r[j] {
        var x := r[i];
        assert r == r[..i] + [x] + r[i + 1..j] + [x] + r[j + 1..];
        assert multiset(r)[x] >= 2;
        NoDupCount(s, x);
        assert false;
      }
    }
  }
}
