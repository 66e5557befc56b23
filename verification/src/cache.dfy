/**
 * `VersionCache` of cache_version_info.py: the cache document held in
 * memory and updated in place. Reading and writing the file is not part
 * of this model; the document `_load_cache` read is a constructor argument.
 */
module Cache {
  import opened Wrappers
  import opened Json
  import opened Utils
  import opened SortKey
  import opened Text
  import opened CacheDoc

  class VersionCache {
    /** The cache document. */
    var data: Doc
    /** `version_count` as read when the cache was opened. */
    var versionCount: int
    /** The number of new versions the last merge of each language found. */
    var newVersionsFound: map<string, int>

    predicate Valid()
      reads this
    {
      Shaped(data)
    }

    /** `__init__`; `loaded` is the document read from the cache file, `None` when there was none. */
    constructor (loaded: Option<Doc>, now: string)
      requires loaded.Some? ==> Shaped(loaded.value)
      ensures data == (if loaded.Some? then loaded.value else DefaultDoc(now))
      ensures versionCount == VersionCountOf(data) && newVersionsFound == map[]
      ensures Valid()
    {
      data := if loaded.Some? then loaded.value else DefaultDoc(now);
      newVersionsFound := map[];
      new;
      versionCount := GetVersionCount();
    }

    /** `_get_version_count` */
    method GetVersionCount() returns (n: int)
      requires Valid()
      ensures n == VersionCountOf(data)
      ensures n != 0 ==> "metadata" in data && "version_count" in data["metadata"].fields
    {
      if "metadata" in data && "version_count" in data["metadata"].fields {
        return data["metadata"].fields["version_count"].n;
      }
      return 0;
    }

    /**
     * `is_update_needed`; `stampOf` stands for `fromisoformat` and
     * `utcnow()`, and `Err` is the OverflowError it lets through.
     */
    method IsUpdateNeeded(language: string, maxAgeDays: int, requestedCount: int,
                          stampOf: string -> Stamp) returns (needed: Result<bool>)
      requires Valid()
      ensures needed == UpdateCheck(data, language, maxAgeDays, requestedCount, stampOf)
    {
      if "languages" !in data {
        return Ok(true);
      }
      var languages := data["languages"].fields;
      if language !in languages {
        return Ok(true);
      }
      var info := languages[language].fields;
      if info == map[] || "recent_releases" !in info || !Truthy(info["recent_releases"]) {
        return Ok(true);
      }
      if requestedCount > 0 {
        var current := |info["recent_releases"].items|;
        if current < requestedCount {
          return Ok(true);
        }
      }
      if "last_updated" !in info || !Truthy(info["last_updated"]) {
        return Ok(true);
      }
      var lastUpdated := info["last_updated"];
      if !lastUpdated.JStr? {
        return Ok(true);  // `fromisoformat` raises TypeError, which is caught
      }
      var stamp := stampOf(lastUpdated.s);
      if stamp.Unparsed? {
        return Ok(true);
      }
      if maxAgeDays > MaxDeltaDays || maxAgeDays < -MaxDeltaDays {
        return Err(OverflowMessage(maxAgeDays));
      }
      match stamp
      case Aware =>
        return Ok(true);
      case Naive(age) =>
        return Ok(age > maxAgeDays * MicrosPerDay);
    }

    /**
     * `merge_versions`: `Ok((changed, new versions))`, or `Err` with the
     * message of the exception the incremental sort raised; `now` is the
     * `utcnow().isoformat()` it stamps.
     */
    method MergeVersions(language: string, info: VersionInfo, count: int, incremental: bool, now: string)
      returns (r: Result<(bool, set<string>)>)
      requires Valid()
      modifies this
      ensures Valid()
      ensures data == Merge(old(data), language, info, count, incremental, now).doc
      ensures versionCount == old(versionCount)
      ensures match Merge(old(data), language, info, count, incremental, now)
              case Merged(_, vs) =>
                r == Ok((vs != {}, vs)) && newVersionsFound == old(newVersionsFound)[language := |vs|]
              case MergeRaised(_, msg) =>
                r == Err(msg) && newVersionsFound == old(newVersionsFound)
    {
      Prepare(language);
      var entry := data["languages"].fields[language].fields;
      var existingVersions, existingReleases := CollectExisting(entry, incremental);
      var newVersions := CollectNew(info.recentReleases, existingVersions);
      assert newVersions == NewVersionsFor(data, language, info, incremental);
      var merged := MergeLists(existingReleases, existingVersions, info.recentReleases, count, incremental);
      if merged.Err? {
        return Err(merged.msg);
      }
      Store(language, info, merged.value, count, now);
      newVersionsFound := newVersionsFound[language := |newVersions|];
      r := Ok((newVersions != {}, newVersions));
    }

    /** The first lines of `merge_versions`: create "languages" and the language's entry. */
    method Prepare(language: string)
      requires Valid()
      modifies this
      ensures data == Prepared(old(data), language) && Valid()
      ensures versionCount == old(versionCount) && newVersionsFound == old(newVersionsFound)
    {
      if "languages" !in data {
        data := data["languages" := JObj(map[])];
      }
      if language !in data["languages"].fields {
        data := data["languages" := JObj(data["languages"].fields[language := JObj(map[])])];
      }
    }

    /** The last lines of `merge_versions`: write the entry back, then the metadata. */
    method Store(language: string, info: VersionInfo, merged: seq<Json>, count: int, now: string)
      requires Valid() && language in Languages(data)
      modifies this
      ensures data == Stored(old(data), language, info, merged, count, now) && Valid()
      ensures versionCount == old(versionCount) && newVersionsFound == old(newVersionsFound)
    {
      ghost var p := data;
      StoreEntry(language, info, merged, now);
      assert Metadata(data) == Metadata(p);
      StoreMetadata(count, now);
    }

    /** The entry's `latest`, `stable`, `recent_releases` and `last_updated` written back. */
    method StoreEntry(language: string, info: VersionInfo, merged: seq<Json>, now: string)
      requires Valid() && language in Languages(data)
      modifies this
      ensures data == old(data)["languages" := JObj(Languages(old(data))[language :=
                        JObj(UpdatedEntry(EntryOf(old(data), language), info, merged, now))])]
      ensures versionCount == old(versionCount) && newVersionsFound == old(newVersionsFound)
    {
      var entry := data["languages"].fields[language].fields;
      assert entry == EntryOf(data, language);
      var latest := OptStr(info.latest);
      if info.latest.None? && "latest" in entry {
        latest := entry["latest"];
      }
      assert latest == Kept(info.latest, entry, "latest");
      var stable := OptStr(info.stable);
      if info.stable.None? && "stable" in entry {
        stable := entry["stable"];
      }
      assert stable == Kept(info.stable, entry, "stable");
      entry := entry["latest" := latest]["stable" := stable]["recent_releases" := JArr(merged)]
                    ["last_updated" := JStr(now)];
      data := data["languages" := JObj(data["languages"].fields[language := JObj(entry)])];
    }

    /** The metadata stamped, and `version_count` raised to a larger positive `count`. */
    method StoreMetadata(count: int, now: string)
      requires "metadata" in data ==> data["metadata"].JObj?
      requires "version_count" in Metadata(data) ==> Metadata(data)["version_count"].JNum?
      modifies this
      ensures data == old(data)["metadata" := JObj(UpdatedMetadata(Metadata(old(data)), count, now))]
      ensures versionCount == old(versionCount) && newVersionsFound == old(newVersionsFound)
    {
      var meta: map<string, Json> := map[];
      if "metadata" in data {
        meta := data["metadata"].fields;
      }
      meta := meta["last_updated" := JStr(now)];
      if count > 0 {
        var current := if "version_count" in meta then meta["version_count"].n else 0;
        if count > current {
          meta := meta["version_count" := JNum(count)];
        }
      }
      data := data["metadata" := JObj(meta)];
    }
  }

  /** The loop of `merge_versions` that collects the versions not stored yet. */
  method CollectNew(infos: seq<ReleaseInfo>, existingVersions: set<Json>) returns (newVersions: set<string>)
    ensures newVersions == VersionsOf(FreshReleases(infos, existingVersions))
  {
    var newReleases := Serialized(infos);
    newVersions := {};
    for i := 0 to |newReleases|
      invariant newVersions == VersionsOf(FreshReleases(infos[..i], existingVersions))
    {
      assert infos[..i + 1][..i] == infos[..i];
      if newReleases[i].fields["version"] !in existingVersions {
        VersionsOfSnoc(FreshReleases(infos[..i], existingVersions), infos[i]);
        newVersions := newVersions + {newReleases[i].fields["version"].s};
      }
    }
    assert infos[..|infos|] == infos;
  }

  /**
   * The list `merge_versions` stores: the appending loop, then in
   * incremental mode with `count > 0` the sort (its keys computed first)
   * and the cut.
   */
  method MergeLists(existingReleases: seq<Json>, existingVersions: set<Json>, infos: seq<ReleaseInfo>,
                    count: int, incremental: bool) returns (r: Result<seq<Json>>)
    requires existingVersions == ExistingVersions(existingReleases)
    requires !incremental ==> existingReleases == []
    ensures r == MergedReleases(existingReleases, infos, count, incremental)
  {
    if !incremental {
      return Ok(Serialized(infos));
    }
    var merged := AppendFresh(existingReleases, existingVersions, infos);
    if count > 0 {
      for i := 0 to |merged|
        invariant forall j :: 0 <= j < i ==> Keyed(merged[j])
      {
        if !Keyed(merged[i]) {
          return Err(KeyErrorMsg);
        }
      }
      if !AllComparable(merged, ReleaseKey) {
        return Err(TypeErrorMsg);
      }
      merged := SortBy(merged, ReleaseKey, true);
      merged := PyPrefix(merged, count);
    }
    return Ok(merged);
  }

  /** The loop of `merge_versions` that gathers the versions of the stored releases. */
  method CollectExisting(entry: map<string, Json>, incremental: bool)
    returns (versions: set<Json>, releases: seq<Json>)
    requires "recent_releases" in entry ==> entry["recent_releases"].JArr?
    ensures releases == (if incremental then ReleasesOf(entry) else [])
    ensures versions == ExistingVersions(releases)
  {
    versions := {};
    releases := [];
    if incremental && "recent_releases" in entry {
      releases := entry["recent_releases"].items;
      for i := 0 to |releases|
        invariant versions == ExistingVersions(releases[..i])
      {
        assert releases[..i + 1][..i] == releases[..i];
        var release := releases[i];
        if release.JObj? && "version" in release.fields {
          versions := versions + {release.fields["version"]};
        }
      }
      assert releases[..|releases|] == releases;
    }
  }

  /** The appending loop of `merge_versions`: stored releases, then the fetched ones not stored yet. */
  method AppendFresh(existingReleases: seq<Json>, existingVersions: set<Json>, infos: seq<ReleaseInfo>)
    returns (merged: seq<Json>)
    ensures merged == existingReleases + Serialized(FreshReleases(infos, existingVersions))
  {
    var newReleases := Serialized(infos);
    merged := existingReleases;
    for i := 0 to |newReleases|
      invariant merged == existingReleases + Serialized(FreshReleases(infos[..i], existingVersions))
    {
      AppendFreshStep(existingReleases, existingVersions, infos, i);
      if newReleases[i].fields["version"] !in existingVersions {
        merged := merged + [newReleases[i]];
      }
    }
    assert infos[..|infos|] == infos;
  }

  lemma AppendFreshStep(head: seq<Json>, existing: set<Json>, infos: seq<ReleaseInfo>, i: nat)
    requires i < |infos|
    ensures head + Serialized(FreshReleases(infos[..i + 1], existing)) ==
            head + Serialized(FreshReleases(infos[..i], existing)) +
            (if JStr(infos[i].version) !in existing then [ReleaseJson(infos[i])] else [])
  {
    var before := FreshReleases(infos[..i], existing);
    assert infos[..i + 1] == infos[..i] + [infos[i]];
    FreshSnoc(infos[..i], infos[i], existing);
    if JStr(infos[i].version) !in existing {
      AppendStep(head, before, infos[i]);
    }
  }

  lemma FreshSnoc(xs: seq<ReleaseInfo>, x: ReleaseInfo, existing: set<Json>)
    ensures FreshReleases(xs + [x], existing) ==
            FreshReleases(xs, existing) + (if JStr(x.version) !in existing then [x] else [])
  {
    assert (xs + [x])[..|xs|] == xs;
  }

  lemma AppendStep(head: seq<Json>, xs: seq<ReleaseInfo>, x: ReleaseInfo)
    ensures head + Serialized(xs) + [ReleaseJson(x)] == head + Serialized(xs + [x])
  {
    assert Serialized(xs + [x]) == Serialized(xs) + [ReleaseJson(x)];
  }

  lemma VersionsOfSnoc(xs: seq<ReleaseInfo>, x: ReleaseInfo)
    ensures VersionsOf(xs + [x]) == VersionsOf(xs) + {x.version}
  {
  }
}
