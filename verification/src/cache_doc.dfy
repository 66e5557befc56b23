/**
 * The version cache document of cache_version_info.py as a value:
 *
 *   { "metadata":  { "last_updated": …, "version": "1.1", "version_count": n },
 *     "languages": { <language>: { "latest": …, "stable": …,
 *                                  "recent_releases": [ … ], "last_updated": … } } }
 *
 * and what `is_update_needed` and `merge_versions` compute on it. The
 * `VersionCache` class (module Cache) is proved against these functions.
 */
module CacheDoc {
  import opened Wrappers
  import opened Text
  import opened Json
  import opened Utils
  import opened SortKey


  // ------------------------------------------------------------ shape

  /** A language entry is an object whose `recent_releases`, when present, is a list. */
  predicate EntryShaped(e: Json)
  {
    e.JObj? && ("recent_releases" in e.fields ==> e.fields["recent_releases"].JArr?)
  }

  /**
   * The shape every cache this tool writes has, and that the cache
   * operations rely on: "languages" maps names to entries, "metadata" is
   * an object whose `version_count`, when present, is a number.
   */
  predicate Shaped(d: Doc)
  {
    && ("languages" in d ==>
          d["languages"].JObj? && forall l :: l in d["languages"].fields ==> EntryShaped(d["languages"].fields[l]))
    && ("metadata" in d ==>
          d["metadata"].JObj? &&
          ("version_count" in d["metadata"].fields ==> d["metadata"].fields["version_count"].JNum?))
  }

  /** The document `_load_cache` starts from when there is no cache file. */
  function DefaultDoc(now: string): (d: Doc)
    ensures Shaped(d) && Languages(d) == map[] && VersionCountOf(d) == 0
  {
    map["metadata" := JObj(map["last_updated" := JStr(now), "version" := JStr("1.1")]),
        "languages" := JObj(map[])]
  }

  /** `data.get("languages", {})` */
  function Languages(d: Doc): map<string, Json>
  {
    if "languages" in d && d["languages"].JObj? then d["languages"].fields else map[]
  }

  /** The fields of a language's entry; empty when there is none. */
  function EntryOf(d: Doc, language: string): map<string, Json>
  {
    var ls := Languages(d);
    if language in ls && ls[language].JObj? then ls[language].fields else map[]
  }

  /** `data["metadata"]`; empty when there is none. */
  function Metadata(d: Doc): map<string, Json>
  {
    if "metadata" in d && d["metadata"].JObj? then d["metadata"].fields else map[]
  }

  /** An entry's `recent_releases`; empty when there is none. */
  function ReleasesOf(e: map<string, Json>): seq<Json>
  {
    if "recent_releases" in e && e["recent_releases"].JArr? then e["recent_releases"].items else []
  }

  /** `_get_version_count`: the stored `metadata.version_count`, or 0. */
  function VersionCountOf(d: Doc): (n: int)
    ensures n != 0 ==> "version_count" in Metadata(d) && Metadata(d)["version_count"] == JNum(n)
  {
    var m := Metadata(d);
    if "version_count" in m && m["version_count"].JNum? then m["version_count"].n else 0
  }

  // --------------------------------------------------- is_update_needed

  /** A `timedelta` of one day, in microseconds (its resolution). */
  const MicrosPerDay: int := 86_400_000_000

  /** What `fromisoformat` and the clock make of a `last_updated` string. */
  datatype Stamp =
    | Unparsed          // `fromisoformat` raises ValueError
    | Aware             // parsed with a UTC offset: `utcnow() - dt` raises TypeError
    | Naive(age: int)   // `utcnow() - dt`, in microseconds

  /** The largest magnitude `timedelta(days=...)` accepts. */
  const MaxDeltaDays: int := 999_999_999

  /** The OverflowError `timedelta(days=days)` raises for a larger magnitude. */
  function OverflowMessage(days: int): string
  {
    "days=" + IntString(days) + OverflowTail
  }

  const OverflowTail: string := "; must have magnitude <= 999999999"

  /**
   * The entry's `last_updated` read by the parser and clock `stampOf`;
   * `None` when it is missing or falsy, `Unparsed` when it is not a string.
   */
  function StampAt(e: map<string, Json>, stampOf: string -> Stamp): Option<Stamp>
  {
    if "last_updated" !in e || !Truthy(e["last_updated"]) then None
    else if e["last_updated"].JStr? then Some(stampOf(e["last_updated"].s))
    else Some(Unparsed)
  }

  /** The checks `is_update_needed` makes before it reads the timestamp. */
  predicate NeededBeforeStamp(d: Doc, language: string, requestedCount: int)
  {
    var e := EntryOf(d, language);
    || "languages" !in d
    || language !in Languages(d)
    || !("recent_releases" in e && Truthy(e["recent_releases"]))
    || (requestedCount > 0 && |ReleasesOf(e)| < requestedCount)
  }

  /**
   * `is_update_needed`: `Ok(true)` when no languages, no entry, no
   * releases, fewer releases than a positive request, no usable timestamp
   * or an age strictly above `maxAgeDays` days; `Err` with the
   * OverflowError of `timedelta(days=maxAgeDays)`, which its `except` does
   * not catch, once a timestamp parses and the magnitude is too large.
   */
  function UpdateCheck(d: Doc, language: string, maxAgeDays: int, requestedCount: int,
                       stampOf: string -> Stamp): (r: Result<bool>)
    ensures r == Ok(false) ==>
      var e := EntryOf(d, language);
      && language in Languages(d)
      && (requestedCount > 0 ==> |ReleasesOf(e)| >= requestedCount)
      && StampAt(e, stampOf).Some? && StampAt(e, stampOf).value.Naive?
      && StampAt(e, stampOf).value.age <= maxAgeDays * MicrosPerDay
    ensures r.Err? ==> r.msg == OverflowMessage(maxAgeDays) && (maxAgeDays > MaxDeltaDays || maxAgeDays < -MaxDeltaDays)
  {
    if NeededBeforeStamp(d, language, requestedCount) then Ok(true)
    else
      match StampAt(EntryOf(d, language), stampOf)
      case None => Ok(true)
      case Some(Unparsed) => Ok(true)
      case Some(Aware) =>
        if maxAgeDays > MaxDeltaDays || maxAgeDays < -MaxDeltaDays then Err(OverflowMessage(maxAgeDays))
        else Ok(true)
      case Some(Naive(age)) =>
        if maxAgeDays > MaxDeltaDays || maxAgeDays < -MaxDeltaDays then Err(OverflowMessage(maxAgeDays))
        else Ok(age > maxAgeDays * MicrosPerDay)
  }

  /**
   * The check raises exactly when it reaches a timestamp that parses with a
   * day count `timedelta` rejects; a day count in range never raises.
   */
  lemma UpdateCheckRaises(d: Doc, language: string, maxAgeDays: int, requestedCount: int,
                          stampOf: string -> Stamp)
    ensures var s := StampAt(EntryOf(d, language), stampOf);
      UpdateCheck(d, language, maxAgeDays, requestedCount, stampOf).Err? <==>
        && !NeededBeforeStamp(d, language, requestedCount)
        && s.Some? && !s.value.Unparsed?
        && (maxAgeDays > MaxDeltaDays || maxAgeDays < -MaxDeltaDays)
  {
  }

  /**
   * Asking for fewer releases or allowing an older entry never turns a
   * stale entry fresh.
   */
  lemma UpdateNeededMonotone(d: Doc, language: string, maxAge1: int, maxAge2: int, count1: int, count2: int,
                             stampOf: string -> Stamp)
    requires maxAge1 <= maxAge2 && count1 <= count2
    ensures UpdateCheck(d, language, maxAge2, count1, stampOf) == Ok(true) ==>
            UpdateCheck(d, language, maxAge1, count2, stampOf) != Ok(false)
  {
  }

  /** The OverflowError's text never sets the rate-limit flag: it holds no 'x'. */
  lemma OverflowNotRateLimit(days: int)
    ensures !Contains(Lower(OverflowMessage(days)), "rate limit exceeded")
  {
    var n := IntString(days);
    NoXDigits(NatString(if days < 0 then -days else days));
    if days < 0 {
      NoXLiteral("-");
      NoXConcat("-", NatString(-days));
    }
    NoXLiteral("days=");
    TailNoX();
    NoXConcat("days=", n);
    NoXConcat("days=" + n, OverflowTail);
    NoXRateLimit(OverflowMessage(days));
  }

  /** No 'x' in either case. */
  predicate NoX(s: string)
  {
    forall i :: 0 <= i < |s| ==> s[i] != 'x' && s[i] != 'X'
  }

  lemma NoXLiteral(s: string)
    requires 'x' !in s && 'X' !in s
    ensures NoX(s)
  {
    forall i | 0 <= i < |s|
      ensures s[i] != 'x' && s[i] != 'X'
    {
      assert s[i] in s;
    }
  }

  lemma TailNoX()
    ensures NoX(OverflowTail)
  {
    forall i | 0 <= i < |OverflowTail|
      ensures OverflowTail[i] != 'x' && OverflowTail[i] != 'X'
    {
    }
  }

  lemma NoXConcat(a: string, b: string)
    requires NoX(a) && NoX(b)
    ensures NoX(a + b)
  {
    forall i | 0 <= i < |a + b|
      ensures (a + b)[i] != 'x' && (a + b)[i] != 'X'
    {
      if i >= |a| {
        assert (a + b)[i] == b[i - |a|];
      }
    }
  }

  lemma NoXDigits(s: string)
    requires forall i :: 0 <= i < |s| ==> IsDigit(s[i])
    ensures NoX(s)
  {
  }

  lemma NoXRateLimit(s: string)
    requires NoX(s)
    ensures !Contains(Lower(s), "rate limit exceeded")
  {
    assert 'x' !in Lower(s);
    CharAbsent(Lower(s), "rate limit exceeded", 'x');
  }

  // ------------------------------------------------------ merge_versions

  /** The versions of the well-formed existing releases (objects with a "version"). */
  function ExistingVersions(rs: seq<Json>): (vs: set<Json>)
    ensures forall v :: v in vs <==>
      exists i :: 0 <= i < |rs| && rs[i].JObj? && "version" in rs[i].fields && rs[i].fields["version"] == v
  {
    if rs == [] then {}
    else
      var init := rs[..|rs| - 1];
      var last := rs[|rs| - 1];
      assert forall i :: 0 <= i < |init| ==> init[i] == rs[i];
      ExistingVersions(init) + (if last.JObj? && "version" in last.fields then {last.fields["version"]} else {})
  }

  /** The fetched releases whose version is not among `existing`, in order. */
  function FreshReleases(infos: seq<ReleaseInfo>, existing: set<Json>): (r: seq<ReleaseInfo>)
    ensures forall x :: x in r <==> x in infos && JStr(x.version) !in existing
    ensures |r| <= |infos|
  {
    if infos == [] then []
    else
      var init := infos[..|infos| - 1];
      var last := infos[|infos| - 1];
      assert infos == init + [last];
      FreshReleases(init, existing) + (if JStr(last.version) !in existing then [last] else [])
  }

  /** The versions of a list of releases. */
  function VersionsOf(infos: seq<ReleaseInfo>): (vs: set<string>)
    ensures forall v :: v in vs <==> exists x :: x in infos && x.version == v
  {
    set x | x in infos :: x.version
  }

  /** `[vars(r) for r in releases]` */
  function Serialized(infos: seq<ReleaseInfo>): (js: seq<Json>)
    ensures |js| == |infos|
    ensures forall i :: 0 <= i < |infos| ==> js[i] == ReleaseJson(infos[i])
  {
    seq(|infos|, i requires 0 <= i < |infos| => ReleaseJson(infos[i]))
  }

  /** The releases `merge_versions` starts from: the stored ones in incremental mode only. */
  function ExistingReleases(d: Doc, language: string, incremental: bool): seq<Json>
  {
    if incremental then ReleasesOf(EntryOf(d, language)) else []
  }

  /** The versions `merge_versions` reports as new. */
  function NewVersionsFor(d: Doc, language: string, info: VersionInfo, incremental: bool): (vs: set<string>)
    ensures forall v :: v in vs <==>
      exists x :: x in info.recentReleases && x.version == v &&
                  JStr(v) !in ExistingVersions(ExistingReleases(d, language, incremental))
  {
    VersionsOf(FreshReleases(info.recentReleases, ExistingVersions(ExistingReleases(d, language, incremental))))
  }

  /** A stored release the sort key can be computed for: an object with a string "version". */
  predicate Keyed(j: Json)
  {
    j.JObj? && "version" in j.fields && j.fields["version"].JStr?
  }

  /** The numeric-first key of a stored release; [] for one that has none. */
  function ReleaseKey(j: Json): Key
  {
    if Keyed(j) then NumericFirstKey(j.fields["version"].s) else []
  }

  /**
   * The message of the KeyError the sort's key raises on an object entry
   * without "version"; the model reports every entry without a string
   * version with this message.
   */
  const KeyErrorMsg: string := "'version'"

  /** The message of the exception the sort raises on keys Python cannot order. */
  const TypeErrorMsg: string := "'<' not supported between instances of 'str' and 'int'"

  /** The stored releases followed by the fetched ones whose version is not stored yet. */
  function Appended(existing: seq<Json>, infos: seq<ReleaseInfo>): seq<Json>
  {
    existing + Serialized(FreshReleases(infos, ExistingVersions(existing)))
  }

  /** An entry of `all` has no string version. */
  predicate SomeUnkeyed(all: seq<Json>)
  {
    exists i :: 0 <= i < |all| && !Keyed(all[i])
  }

  /** Sorting `all` by the numeric-first key raises. */
  predicate SortRaises(all: seq<Json>)
  {
    SomeUnkeyed(all) || !AllComparable(all, ReleaseKey)
  }

  /**
   * The new `recent_releases`. Non-incremental: the fetched releases. Incremental:
   * the stored ones followed by the fresh fetched ones, then, when
   * `count > 0`, sorted newest first by the numeric-first key and cut to
   * `count`; that sort raises on a stored entry without a string version
   * and on keys that cannot be ordered.
   */
  function MergedReleases(existing: seq<Json>, infos: seq<ReleaseInfo>, count: int, incremental: bool)
    : (r: Result<seq<Json>>)
    ensures !incremental ==> r == Ok(Serialized(infos))
    ensures incremental && count <= 0 ==> r == Ok(Appended(existing, infos))
    ensures r.Ok? && incremental && count > 0 ==>
      var all := Appended(existing, infos);
      && |r.value| == (if count < |all| then count else |all|)
      && SortedBy(r.value, ReleaseKey, true)
      && multiset(r.value) <= multiset(all)
      && forall x, y :: x in multiset(all) - multiset(r.value) && y in r.value ==>
           !Precedes(true, ReleaseKey(x), ReleaseKey(y))
    ensures r.Err? <==> incremental && count > 0 && SortRaises(Appended(existing, infos))
    ensures r.Err? ==> r.msg == (if SomeUnkeyed(Appended(existing, infos)) then KeyErrorMsg else TypeErrorMsg)
  {
    if !incremental then Ok(Serialized(infos))
    else
      var merged := Appended(existing, infos);
      if count <= 0 then Ok(merged)
      else if SomeUnkeyed(merged) then Err(KeyErrorMsg)
      else if !AllComparable(merged, ReleaseKey) then Err(TypeErrorMsg)
      else Ok(Newest(merged, count))
  }

  /** `sorted(all, key=..., reverse=True)[:count]` for a positive `count`. */
  function Newest(all: seq<Json>, count: int): (r: seq<Json>)
    requires count > 0
    ensures |r| == (if count < |all| then count else |all|)
    ensures SortedBy(r, ReleaseKey, true)
    ensures multiset(r) <= multiset(all)
    ensures forall x, y :: x in multiset(all) - multiset(r) && y in r ==>
      !Precedes(true, ReleaseKey(x), ReleaseKey(y))
  {
    var sorted := SortBy(all, ReleaseKey, true);
    var cut := PyPrefix(sorted, count);
    PrefixMultiset(sorted, |cut|);
    SortedCut(sorted, ReleaseKey, true, |cut|);
    cut
  }

  lemma PrefixMultiset<T>(s: seq<T>, n: nat)
    requires n <= |s|
    ensures multiset(s[..n]) <= multiset(s)
  {
    assert s == s[..n] + s[n..];
  }

  /** Cutting a sorted list drops nothing that sorts ahead of what it keeps. */
  lemma SortedCut<T>(s: seq<T>, key: T -> Key, desc: bool, n: nat)
    requires SortedBy(s, key, desc) && n <= |s|
    ensures forall x, y :: x in multiset(s) - multiset(s[..n]) && y in s[..n] ==>
      !Precedes(desc, key(x), key(y))
  {
    assert s == s[..n] + s[n..];
    forall x, y | x in multiset(s) - multiset(s[..n]) && y in s[..n]
      ensures !Precedes(desc, key(x), key(y))
    {
      assert x in multiset(s[n..]);
      var j :| n <= j < |s| && s[j] == x;
      var i :| 0 <= i < n && s[i] == y;
    }
  }

  /** The document with "languages" and the language's entry created where missing. */
  function Prepared(d: Doc, language: string): (p: Doc)
    requires Shaped(d)
    ensures Shaped(p) && language in Languages(p)
    ensures EntryOf(p, language) == EntryOf(d, language)
    ensures forall k :: k in d && k != "languages" ==> k in p && p[k] == d[k]
    ensures forall k :: k in p ==> k in d || k == "languages"
    ensures forall l :: l in Languages(d) ==> l in Languages(p) && Languages(p)[l] == Languages(d)[l]
    ensures forall l :: l in Languages(p) ==> l in Languages(d) || l == language
  {
    var ls := Languages(d);
    if language in ls then d else d["languages" := JObj(ls[language := JObj(map[])])]
  }

  /** `latest` or `stable` as stored: the fetched value, else the stored one when there is one. */
  function Kept(fetched: Option<string>, entry: map<string, Json>, key: string): (j: Json)
    ensures fetched.Some? ==> j == JStr(fetched.value)
    ensures fetched.None? && key in entry ==> j == entry[key]
    ensures fetched.None? && key !in entry ==> j == JNull
  {
    if fetched.Some? then JStr(fetched.value) else if key in entry then entry[key] else JNull
  }

  /** The entry after a merge: four keys set, every other key as it was. */
  function UpdatedEntry(entry: map<string, Json>, info: VersionInfo, merged: seq<Json>, now: string)
    : (e: map<string, Json>)
    ensures e.Keys == entry.Keys + {"latest", "stable", "recent_releases", "last_updated"}
    ensures e["latest"] == Kept(info.latest, entry, "latest")
    ensures e["stable"] == Kept(info.stable, entry, "stable")
    ensures e["recent_releases"] == JArr(merged) && e["last_updated"] == JStr(now)
    ensures forall k :: k in entry && k !in {"latest", "stable", "recent_releases", "last_updated"} ==> e[k] == entry[k]
  {
    entry["latest" := Kept(info.latest, entry, "latest")]
         ["stable" := Kept(info.stable, entry, "stable")]
         ["recent_releases" := JArr(merged)]
         ["last_updated" := JStr(now)]
  }

  /** The metadata after a merge: the timestamp, and `version_count` raised to a larger positive `count`. */
  function UpdatedMetadata(meta: map<string, Json>, count: int, now: string): (m: map<string, Json>)
    requires "version_count" in meta ==> meta["version_count"].JNum?
    ensures "last_updated" in m && m["last_updated"] == JStr(now)
    ensures forall k :: k in meta && k != "last_updated" && k != "version_count" ==> k in m && m[k] == meta[k]
    ensures m.Keys <= meta.Keys + {"last_updated", "version_count"}
  {
    var stamped := meta["last_updated" := JStr(now)];
    var current := if "version_count" in stamped then stamped["version_count"].n else 0;
    if count > 0 && count > current then stamped["version_count" := JNum(count)] else stamped
  }

  /** What `merge_versions` leaves: the new document and the new versions, or the document when it raised. */
  datatype MergeOutcome =
    | Merged(doc: Doc, newVersions: set<string>)
    | MergeRaised(doc: Doc, msg: string)

  /** `merge_versions` on a document. */
  function Merge(d: Doc, language: string, info: VersionInfo, count: int, incremental: bool, now: string)
    : (out: MergeOutcome)
    requires Shaped(d)
    ensures Shaped(out.doc)
  {
    var p := Prepared(d, language);
    var entry := EntryOf(p, language);
    var existing := ExistingReleases(p, language, incremental);
    match MergedReleases(existing, info.recentReleases, count, incremental)
    case Err(msg) => MergeRaised(p, msg)
    case Ok(merged) =>
      Merged(Stored(p, language, info, merged, count, now), NewVersionsFor(p, language, info, incremental))
  }

  /** The document with the merged entry and the updated metadata written back. */
  function Stored(p: Doc, language: string, info: VersionInfo, merged: seq<Json>, count: int, now: string)
    : (doc: Doc)
    requires Shaped(p) && language in Languages(p)
    ensures Shaped(doc)
    ensures Languages(doc) == Languages(p)[language := JObj(UpdatedEntry(EntryOf(p, language), info, merged, now))]
    ensures EntryOf(doc, language) == UpdatedEntry(EntryOf(p, language), info, merged, now)
    ensures Metadata(doc) == UpdatedMetadata(Metadata(p), count, now)
    ensures doc.Keys == p.Keys + {"metadata"}
    ensures forall k :: k in p && k != "languages" && k != "metadata" ==> doc[k] == p[k]
  {
    var e := UpdatedEntry(EntryOf(p, language), info, merged, now);
    var meta := UpdatedMetadata(Metadata(p), count, now);
    var doc := p["languages" := JObj(Languages(p)[language := JObj(e)])]["metadata" := JObj(meta)];
    assert Shaped(doc) by {
      assert Languages(doc) == Languages(p)[language := JObj(e)];
    }
    doc
  }

  // ------------------------------------------------- merge_versions lemmas

  /** The merged entry holds the four keys a merge writes. */
  lemma MergedEntry(d: Doc, language: string, info: VersionInfo, count: int, incremental: bool, now: string)
    requires Shaped(d) && Merge(d, language, info, count, incremental, now).Merged?
    ensures var out := Merge(d, language, info, count, incremental, now);
      && language in Languages(out.doc)
      && EntryOf(out.doc, language) ==
           UpdatedEntry(EntryOf(d, language), info,
                        MergedReleases(ExistingReleases(d, language, incremental), info.recentReleases,
                                       count, incremental).value, now)
      && Metadata(out.doc) == UpdatedMetadata(Metadata(d), count, now)
  {
  }

  /**
   * `latest` and `stable` are never erased by a `None`: a fetched value
   * replaces them, a missing one keeps what was stored.
   */
  lemma MergeKeepsLatestStable(d: Doc, language: string, info: VersionInfo, count: int,
                               incremental: bool, now: string)
    requires Shaped(d) && Merge(d, language, info, count, incremental, now).Merged?
    ensures var e := EntryOf(Merge(d, language, info, count, incremental, now).doc, language);
            var was := EntryOf(d, language);
      && "latest" in e && "stable" in e
      && (info.latest.Some? ==> e["latest"] == JStr(info.latest.value))
      && (info.latest.None? && "latest" in was ==> e["latest"] == was["latest"])
      && (info.stable.Some? ==> e["stable"] == JStr(info.stable.value))
      && (info.stable.None? && "stable" in was ==> e["stable"] == was["stable"])
  {
    MergedEntry(d, language, info, count, incremental, now);
  }

  /**
   * `metadata.version_count` is a high-water mark: a merge raises it to a
   * larger positive `count` and otherwise leaves it, so it never falls.
   */
  lemma MergeVersionCount(d: Doc, language: string, info: VersionInfo, count: int,
                          incremental: bool, now: string)
    requires Shaped(d)
    ensures var out := Merge(d, language, info, count, incremental, now);
      && (out.Merged? ==>
            VersionCountOf(out.doc) == if count > 0 && count > VersionCountOf(d) then count else VersionCountOf(d))
      && (out.MergeRaised? ==> VersionCountOf(out.doc) == VersionCountOf(d))
      && VersionCountOf(out.doc) >= VersionCountOf(d)
  {
    var out := Merge(d, language, info, count, incremental, now);
    var p := Prepared(d, language);
    assert "metadata" in p <==> "metadata" in d;
    assert Metadata(p) == Metadata(d);
    if out.Merged? {
      MergedEntry(d, language, info, count, incremental, now);
      UpdatedCount(out.doc, d, count, now);
    } else {
      assert out.doc == p;
    }
  }

  /** The metadata update sets `version_count` to `count` when that is positive and larger, and keeps it otherwise. */
  lemma UpdatedCount(doc: Doc, d: Doc, count: int, now: string)
    requires Shaped(d) && Metadata(doc) == UpdatedMetadata(Metadata(d), count, now)
    ensures VersionCountOf(doc) == if count > 0 && count > VersionCountOf(d) then count else VersionCountOf(d)
  {
    var meta := Metadata(d);
    var stamped := meta["last_updated" := JStr(now)];
    assert "version_count" in stamped <==> "version_count" in meta;
    assert "version_count" in meta ==> stamped["version_count"] == meta["version_count"];
  }

  /**
   * A merge touches only its own language: every other language's entry
   * is as it was, and every top-level key but "languages" and "metadata" too.
   */
  lemma MergeFrame(d: Doc, language: string, info: VersionInfo, count: int, incremental: bool, now: string)
    requires Shaped(d)
    ensures var out := Merge(d, language, info, count, incremental, now);
      && Languages(out.doc).Keys == Languages(d).Keys + {language}
      && (forall l :: l in Languages(d) && l != language ==> Languages(out.doc)[l] == Languages(d)[l])
      && (forall k :: k in d && k != "languages" && k != "metadata" ==> k in out.doc && out.doc[k] == d[k])
      && (forall k :: k in out.doc ==> k in d || k == "languages" || k == "metadata")
  {
    var out := Merge(d, language, info, count, incremental, now);
    var p := Prepared(d, language);
    var m := MergedReleases(ExistingReleases(p, language, incremental), info.recentReleases, count, incremental);
    if m.Ok? {
      assert out.doc == Stored(p, language, info, m.value, count, now);
      StoredFrame(d, language, info, m.value, count, now);
    } else {
      assert out.doc == p;
    }
  }

  /** The frame of `MergeFrame`, for the document a successful merge writes. */
  lemma StoredFrame(d: Doc, language: string, info: VersionInfo, merged: seq<Json>, count: int, now: string)
    requires Shaped(d)
    ensures var doc := Stored(Prepared(d, language), language, info, merged, count, now);
      && Languages(doc).Keys == Languages(d).Keys + {language}
      && (forall l :: l in Languages(d) && l != language ==> Languages(doc)[l] == Languages(d)[l])
      && (forall k :: k in d && k != "languages" && k != "metadata" ==> k in doc && doc[k] == d[k])
      && (forall k :: k in doc ==> k in d || k == "languages" || k == "metadata")
  {
    StoredLanguages(Prepared(d, language), language, info, merged, count, now);
  }

  /** A successful merge's document keeps every other language's entry. */
  lemma StoredLanguages(p: Doc, language: string, info: VersionInfo, merged: seq<Json>, count: int, now: string)
    requires Shaped(p) && language in Languages(p)
    ensures var doc := Stored(p, language, info, merged, count, now);
      && Languages(doc).Keys == Languages(p).Keys
      && forall l :: l in Languages(p) && l != language ==> Languages(doc)[l] == Languages(p)[l]
  {
  }

  /** The document a successful merge leaves: the prepared one with the entry and the metadata set. */
  lemma MergedDoc(d: Doc, language: string, info: VersionInfo, count: int, incremental: bool, now: string)
    requires Shaped(d) && Merge(d, language, info, count, incremental, now).Merged?
    ensures var out := Merge(d, language, info, count, incremental, now);
            var p := Prepared(d, language);
      && Languages(out.doc) == Languages(p)[language := JObj(EntryOf(out.doc, language))]
      && out.doc.Keys == p.Keys + {"metadata"}
      && forall k :: k in p && k != "languages" && k != "metadata" ==> out.doc[k] == p[k]
  {
  }

  /**
   * Non-incremental: `recent_releases` becomes exactly the fetched list
   * (so an empty fetch empties it) and every fetched version is new.
   */
  lemma NonIncrementalReplaces(d: Doc, language: string, info: VersionInfo, count: int, now: string)
    requires Shaped(d)
    ensures var out := Merge(d, language, info, count, false, now);
      && out.Merged?
      && ReleasesOf(EntryOf(out.doc, language)) == Serialized(info.recentReleases)
      && out.newVersions == VersionsOf(info.recentReleases)
  {
    var p := Prepared(d, language);
    assert ExistingReleases(p, language, false) == [];
    assert MergedReleases([], info.recentReleases, count, false) == Ok(Serialized(info.recentReleases));
    var out := Merge(d, language, info, count, false, now);
    assert out.Merged?;
    MergedEntry(d, language, info, count, false, now);
    var e := EntryOf(out.doc, language);
    assert e["recent_releases"] == JArr(Serialized(info.recentReleases));
    assert ExistingVersions([]) == {};
    NothingExisting(info.recentReleases);
  }

  /** With nothing stored, every fetched release is fresh. */
  lemma NothingExisting(infos: seq<ReleaseInfo>)
    ensures VersionsOf(FreshReleases(infos, {})) == VersionsOf(infos)
  {
    var kept := FreshReleases(infos, {});
    forall v | v in VersionsOf(infos)
      ensures v in VersionsOf(kept)
    {
      var x :| x in infos && x.version == v;
      assert x in kept;
    }
  }

  /**
   * Incremental without a count: every stored entry, malformed ones
   * included, stays in place and in order; the fresh releases follow.
   */
  lemma IncrementalKeeps(d: Doc, language: string, info: VersionInfo, count: int, now: string)
    requires Shaped(d) && count <= 0
    ensures var out := Merge(d, language, info, count, true, now);
            var was := ReleasesOf(EntryOf(d, language));
      && out.Merged?
      && ReleasesOf(EntryOf(out.doc, language)) ==
           was + Serialized(FreshReleases(info.recentReleases, ExistingVersions(was)))
      && was <= ReleasesOf(EntryOf(out.doc, language))
  {
    MergedEntry(d, language, info, count, true, now);
  }

  /**
   * Merging the same releases again, incrementally, finds nothing new,
   * unless the first merge cut the list to `count`.
   */
  lemma ReMergeFindsNothing(d: Doc, language: string, info: VersionInfo, count: int, incremental: bool,
                            now: string)
    requires Shaped(d) && Merge(d, language, info, count, incremental, now).Merged?
    requires !incremental || count <= 0
    ensures NewVersionsFor(Merge(d, language, info, count, incremental, now).doc, language, info, true) == {}
  {
    var out := Merge(d, language, info, count, incremental, now);
    var existing := ExistingReleases(d, language, incremental);
    var src := Source(existing, info, incremental);
    StoredAfterMerge(d, language, info, count, incremental, now);
    AllStored(existing, src, info.recentReleases, incremental);
    NothingNew(out.doc, language, info);
  }

  /** The fetched releases a merge appends. */
  function Source(existing: seq<Json>, info: VersionInfo, incremental: bool): seq<ReleaseInfo>
  {
    if incremental then FreshReleases(info.recentReleases, ExistingVersions(existing)) else info.recentReleases
  }

  lemma StoredAfterMerge(d: Doc, language: string, info: VersionInfo, count: int, incremental: bool, now: string)
    requires Shaped(d) && Merge(d, language, info, count, incremental, now).Merged?
    requires !incremental || count <= 0
    ensures var existing := ExistingReleases(d, language, incremental);
      ReleasesOf(EntryOf(Merge(d, language, info, count, incremental, now).doc, language))
        == existing + Serialized(Source(existing, info, incremental))
  {
    MergedEntry(d, language, info, count, incremental, now);
    if !incremental {
      assert ExistingReleases(d, language, incremental) == [];
    }
  }

  lemma AllStored(existing: seq<Json>, src: seq<ReleaseInfo>, infos: seq<ReleaseInfo>, incremental: bool)
    requires src == (if incremental then FreshReleases(infos, ExistingVersions(existing)) else infos)
    ensures forall x :: x in infos ==> JStr(x.version) in ExistingVersions(existing + Serialized(src))
  {
    forall x | x in infos
      ensures JStr(x.version) in ExistingVersions(existing + Serialized(src))
    {
      if JStr(x.version) in ExistingVersions(existing) {
        StoredVersionKept(existing, Serialized(src), JStr(x.version));
      } else {
        assert x in src;
        StoredVersionAdded(existing, src, x);
      }
    }
  }

  lemma NothingNew(d: Doc, language: string, info: VersionInfo)
    requires forall x :: x in info.recentReleases ==>
               JStr(x.version) in ExistingVersions(ReleasesOf(EntryOf(d, language)))
    ensures NewVersionsFor(d, language, info, true) == {}
  {
    var vs := NewVersionsFor(d, language, info, true);
    forall v ensures v !in vs {
      assert ExistingReleases(d, language, true) == ReleasesOf(EntryOf(d, language));
    }
  }

  lemma StoredVersionKept(a: seq<Json>, b: seq<Json>, v: Json)
    requires v in ExistingVersions(a)
    ensures v in ExistingVersions(a + b)
  {
    var i :| 0 <= i < |a| && a[i].JObj? && "version" in a[i].fields && a[i].fields["version"] == v;
    assert (a + b)[i] == a[i];
  }

  lemma StoredVersionAdded(a: seq<Json>, src: seq<ReleaseInfo>, x: ReleaseInfo)
    requires x in src
    ensures JStr(x.version) in ExistingVersions(a + Serialized(src))
  {
    var j :| 0 <= j < |src| && src[j] == x;
    assert (a + Serialized(src))[|a| + j] == ReleaseJson(x);
  }
}
