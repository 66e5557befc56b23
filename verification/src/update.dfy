/**
 * `update_versions` of cache_version_info.py: for each requested language,
 * skip it when its cache entry is fresh, skip it once the GitHub rate limit
 * was hit, otherwise fetch and merge, sorting every language into one of
 * four buckets. The fetchers are an oracle (`fetch`), the clock the `stampOf`
 * and `now` parameters of the cache operations.
 */
module Update {
  import opened Wrappers
  import opened Text
  import opened Json
  import opened Utils
  import opened CacheDoc
  import opened Cache

  /** What `fetcher.fetch_versions(recent_count=count)` did: raised, or returned. */
  datatype FetchOutcome = Raised(msg: string) | Returned(info: VersionInfo)

  /** The four buckets, the new versions per updated language and the rate-limit flag. */
  datatype Summary = Summary(
    updatedLanguages: set<string>,
    unchangedLanguages: set<string>,
    skippedLanguages: set<string>,
    failedLanguages: set<string>,
    newVersions: map<string, set<string>>,
    rateLimited: bool)

  /** The cache's document and `new_versions_found`, and the summary so far. */
  datatype RunState = RunState(doc: Doc, found: map<string, int>, summary: Summary)

  const EmptySummary: Summary := Summary({}, {}, {}, {}, map[], false)

  /** The languages `get_version_fetcher` knows. */
  const Supported: set<string> := {"python", "nodejs", "ruby", "go", "rust"}

  /** `get_version_fetcher(language).fetch_versions(...)`, its `ValueError` included. */
  function Fetched(language: string, fetch: string -> FetchOutcome): (f: FetchOutcome)
    ensures language !in Supported ==> f == Raised("Unsupported language: " + language)
    ensures language in Supported ==> f == fetch(language)
  {
    if language in Supported then fetch(language) else Raised("Unsupported language: " + language)
  }

  /** The test the `except` branch applies to the exception's text. */
  predicate RateLimitMessage(msg: string)
  {
    Contains(Lower(msg), "rate limit exceeded")
  }

  /** The `except` branch: the language failed; a rate-limit message sets the flag. */
  function Failed(s: Summary, language: string, msg: string): (r: Summary)
    ensures r.failedLanguages == s.failedLanguages + {language}
    ensures r.rateLimited <==> s.rateLimited || RateLimitMessage(msg)
    ensures r.updatedLanguages == s.updatedLanguages && r.unchangedLanguages == s.unchangedLanguages && r.skippedLanguages == s.skippedLanguages
    ensures r.newVersions == s.newVersions
  {
    s.(failedLanguages := s.failedLanguages + {language}, rateLimited := s.rateLimited || RateLimitMessage(msg))
  }

  /** How one pass of the loop ended. */
  datatype Pass =
    | UpToDate                      // fresh cache entry and no `force`: nothing fetched
    | RateLimitSkip                 // the rate limit was hit earlier: nothing fetched
    | FetchFailed(msg: string)      // `is_update_needed`, `get_version_fetcher` or the fetcher raised
    | MergeDone(out: MergeOutcome)  // fetched, then merged (or the merge raised)

  /** The branch the loop body of `update_versions` takes for `language`. */
  function PassOf(st: RunState, language: string, force: bool, maxAgeDays: int, count: int,
                  incremental: bool, fetch: string -> FetchOutcome, stampOf: string -> Stamp,
                  now: string): (p: Pass)
    requires Shaped(st.doc)
    ensures p.UpToDate? <==> !force && UpdateCheck(st.doc, language, maxAgeDays, count, stampOf) == Ok(false)
    ensures !force && UpdateCheck(st.doc, language, maxAgeDays, count, stampOf).Err? ==>
              p == FetchFailed(UpdateCheck(st.doc, language, maxAgeDays, count, stampOf).msg)
    ensures p.RateLimitSkip? ==> st.summary.rateLimited
    ensures p.MergeDone? ==> !st.summary.rateLimited
    ensures p.FetchFailed? && (force || UpdateCheck(st.doc, language, maxAgeDays, count, stampOf).Ok?) ==>
              !st.summary.rateLimited
    ensures p.MergeDone? ==> language in Supported && Shaped(p.out.doc)
    ensures language !in Supported && !p.UpToDate? && !p.RateLimitSkip? &&
            (force || UpdateCheck(st.doc, language, maxAgeDays, count, stampOf).Ok?) ==>
              p == FetchFailed("Unsupported language: " + language)
  {
    var check := if force then Ok(true) else UpdateCheck(st.doc, language, maxAgeDays, count, stampOf);
    if check.Err? then FetchFailed(check.msg)
    else if !check.value then UpToDate
    else if st.summary.rateLimited then RateLimitSkip
    else
      match Fetched(language, fetch)
      case Raised(msg) => FetchFailed(msg)
      case Returned(info) => MergeDone(Merge(st.doc, language, info, count, incremental, now))
  }

  /**
   * The buckets after a pass: the language joins one bucket, chosen by how
   * the pass ended, and a new language joins exactly one.
   */
  function Tally(s: Summary, language: string, p: Pass): (r: Summary)
    ensures Processed(r) == Processed(s) + {language}
    ensures Coherent(s) && (p.RateLimitSkip? ==> s.rateLimited) ==> Coherent(r)
    ensures p.UpToDate? || p.RateLimitSkip? ==> r.rateLimited == s.rateLimited
    ensures r.updatedLanguages == s.updatedLanguages + (if p.MergeDone? && p.out.Merged? && p.out.newVersions != {} then {language} else {})
    ensures p.UpToDate? ==> r == s.(unchangedLanguages := s.unchangedLanguages + {language})
    ensures p.RateLimitSkip? ==> r == s.(skippedLanguages := s.skippedLanguages + {language})
    ensures p.FetchFailed? ==> r == Failed(s, language, p.msg)
    ensures p.MergeDone? && p.out.MergeRaised? ==> r == Failed(s, language, p.out.msg)
    ensures p.MergeDone? && p.out.Merged? && p.out.newVersions != {} ==>
      r == s.(updatedLanguages := s.updatedLanguages + {language}, newVersions := s.newVersions[language := p.out.newVersions])
    ensures p.MergeDone? && p.out.Merged? && p.out.newVersions == {} ==>
      r == s.(unchangedLanguages := s.unchangedLanguages + {language})
    ensures Disjoint(s) && language !in Processed(s) ==> Disjoint(r)
  {
    match p
    case UpToDate => s.(unchangedLanguages := s.unchangedLanguages + {language})
    case RateLimitSkip => s.(skippedLanguages := s.skippedLanguages + {language})
    case FetchFailed(msg) => Failed(s, language, msg)
    case MergeDone(MergeRaised(_, msg)) => Failed(s, language, msg)
    case MergeDone(Merged(_, vs)) =>
      if vs != {} then s.(updatedLanguages := s.updatedLanguages + {language}, newVersions := s.newVersions[language := vs])
      else s.(unchangedLanguages := s.unchangedLanguages + {language})
  }

  /** One pass of the loop of `update_versions`: the cache changes only when a merge ran. */
  function Step(st: RunState, language: string, force: bool, maxAgeDays: int, count: int,
                incremental: bool, fetch: string -> FetchOutcome, stampOf: string -> Stamp,
                now: string): (r: RunState)
    requires Shaped(st.doc)
    ensures Shaped(r.doc)
    ensures Processed(r.summary) == Processed(st.summary) + {language}
    ensures Coherent(st.summary) ==> Coherent(r.summary)
    ensures Disjoint(st.summary) && language !in Processed(st.summary) ==> Disjoint(r.summary)
  {
    var p := PassOf(st, language, force, maxAgeDays, count, incremental, fetch, stampOf, now);
    var summary := Tally(st.summary, language, p);
    match p
    case MergeDone(Merged(d, vs)) => RunState(d, st.found[language := |vs|], summary)
    case MergeDone(MergeRaised(d, _)) => RunState(d, st.found, summary)
    case _ => st.(summary := summary)
  }

  /** The loop of `update_versions` over `languages`, in order. */
  function Run(st: RunState, languages: seq<string>, force: bool, maxAgeDays: int, count: int,
               incremental: bool, fetch: string -> FetchOutcome, stampOf: string -> Stamp,
               now: string): (r: RunState)
    requires Shaped(st.doc)
    ensures Shaped(r.doc)
    ensures st.summary.rateLimited ==> r.summary.rateLimited
    decreases |languages|
  {
    if languages == [] then st
    else
      var before := Run(st, languages[..|languages| - 1], force, maxAgeDays, count, incremental, fetch, stampOf, now);
      Step(before, languages[|languages| - 1], force, maxAgeDays, count, incremental, fetch, stampOf, now)
  }

  /**
   * `update_versions` on an open cache: the loop, with the cache updated in
   * place; the summary is the result's four lists and
   * `new_versions_by_language`, and `cache.data` its `cache_data`.
   */
  method UpdateVersions(cache: VersionCache, languages: seq<string>, force: bool, maxAgeDays: int,
                        count: int, incremental: bool, fetch: string -> FetchOutcome,
                        stampOf: string -> Stamp, now: string) returns (summary: Summary)
    requires cache.Valid()
    modifies cache
    ensures cache.Valid()
    ensures var r := Run(RunState(old(cache.data), old(cache.newVersionsFound), EmptySummary), languages,
                         force, maxAgeDays, count, incremental, fetch, stampOf, now);
      cache.data == r.doc && cache.newVersionsFound == r.found && summary == r.summary
  {
    ghost var start := RunState(cache.data, cache.newVersionsFound, EmptySummary);
    summary := EmptySummary;
    for i := 0 to |languages|
      invariant cache.Valid()
      invariant RunState(cache.data, cache.newVersionsFound, summary) ==
                Run(start, languages[..i], force, maxAgeDays, count, incremental, fetch, stampOf, now)
    {
      RunExtend(start, languages, i, force, maxAgeDays, count, incremental, fetch, stampOf, now);
      summary := Process(cache, summary, languages[i], force, maxAgeDays, count, incremental, fetch, stampOf, now);
    }
    assert languages[..|languages|] == languages;
  }

  /** The loop run one element further is one more step. */
  lemma RunExtend(st: RunState, languages: seq<string>, i: nat, force: bool, maxAgeDays: int, count: int,
                  incremental: bool, fetch: string -> FetchOutcome, stampOf: string -> Stamp, now: string)
    requires Shaped(st.doc) && i < |languages|
    ensures Run(st, languages[..i + 1], force, maxAgeDays, count, incremental, fetch, stampOf, now) ==
            Step(Run(st, languages[..i], force, maxAgeDays, count, incremental, fetch, stampOf, now), languages[i],
                 force, maxAgeDays, count, incremental, fetch, stampOf, now)
  {
    assert languages[..i + 1][..i] == languages[..i];
  }

  /** The body of the loop of `update_versions`, its `try`/`except` included. */
  method Process(cache: VersionCache, summary: Summary, language: string, force: bool, maxAgeDays: int,
                 count: int, incremental: bool, fetch: string -> FetchOutcome,
                 stampOf: string -> Stamp, now: string) returns (after: Summary)
    requires cache.Valid()
    modifies cache
    ensures cache.Valid()
    ensures RunState(cache.data, cache.newVersionsFound, after) ==
            Step(RunState(old(cache.data), old(cache.newVersionsFound), summary), language, force,
                 maxAgeDays, count, incremental, fetch, stampOf, now)
  {
    ghost var st := RunState(cache.data, cache.newVersionsFound, summary);
    ghost var p := PassOf(st, language, force, maxAgeDays, count, incremental, fetch, stampOf, now);
    if !force {
      var needed := cache.IsUpdateNeeded(language, maxAgeDays, count, stampOf);
      match needed
      case Err(msg) =>
        assert p == FetchFailed(msg);
        after := Fail(summary, language, msg);
        return;
      case Ok(stale) =>
        if !stale {
          assert p == UpToDate;
          return summary.(unchangedLanguages := summary.unchangedLanguages + {language});
        }
    }
    if summary.rateLimited {
      assert p == RateLimitSkip;
      return summary.(skippedLanguages := summary.skippedLanguages + {language});
    }
    var outcome := Fetched(language, fetch);
    match outcome
    case Raised(msg) =>
      assert p == FetchFailed(msg);
      after := Fail(summary, language, msg);
    case Returned(info) =>
      assert p == MergeDone(Merge(st.doc, language, info, count, incremental, now));
      after := MergeInto(cache, summary, language, info, count, incremental, now);
      assert after == Tally(summary, language, p);
  }

  /** The `except` branch: the language fails, and the exception's text may set the flag. */
  method Fail(summary: Summary, language: string, msg: string) returns (after: Summary)
    ensures after == Failed(summary, language, msg)
  {
    after := summary.(failedLanguages := summary.failedLanguages + {language});
    if Contains(Lower(msg), "rate limit exceeded") {
      after := after.(rateLimited := true);
    }
  }

  /** The `try` body once the fetcher returned: merge, then sort the language by what the merge found. */
  method MergeInto(cache: VersionCache, summary: Summary, language: string, info: VersionInfo, count: int,
                   incremental: bool, now: string) returns (after: Summary)
    requires cache.Valid()
    modifies cache
    ensures cache.Valid()
    ensures var out := Merge(old(cache.data), language, info, count, incremental, now);
      && cache.data == out.doc
      && cache.newVersionsFound == (if out.Merged? then old(cache.newVersionsFound)[language := |out.newVersions|]
                                    else old(cache.newVersionsFound))
      && (out.MergeRaised? ==> after == Failed(summary, language, out.msg))
      && (out.Merged? && out.newVersions != {} ==>
            after == summary.(updatedLanguages := summary.updatedLanguages + {language},
                              newVersions := summary.newVersions[language := out.newVersions]))
      && (out.Merged? && out.newVersions == {} ==>
            after == summary.(unchangedLanguages := summary.unchangedLanguages + {language}))
  {
    ghost var out := Merge(cache.data, language, info, count, incremental, now);
    var merged := cache.MergeVersions(language, info, count, incremental, now);
    match merged
    case Err(msg) =>
      assert out == MergeRaised(out.doc, msg);
      after := summary.(failedLanguages := summary.failedLanguages + {language});
      if Contains(Lower(msg), "rate limit exceeded") {
        after := after.(rateLimited := true);
      }
      assert after == Failed(summary, language, msg);
    case Ok((hasChanges, newVersionSet)) =>
      assert out == Merged(out.doc, newVersionSet) && hasChanges == (newVersionSet != {});
      if hasChanges {
        after := summary.(updatedLanguages := summary.updatedLanguages + {language},
                          newVersions := summary.newVersions[language := newVersionSet]);
      } else {
        after := summary.(unchangedLanguages := summary.unchangedLanguages + {language});
      }
  }

  // ------------------------------------------------------------ lemmas

  /** The languages the buckets hold. */
  function Processed(s: Summary): set<string>
  {
    s.updatedLanguages + s.unchangedLanguages + s.skippedLanguages + s.failedLanguages
  }

  /** No language sits in two buckets. */
  predicate Disjoint(s: Summary)
  {
    && s.updatedLanguages !! s.unchangedLanguages && s.updatedLanguages !! s.skippedLanguages
    && s.updatedLanguages !! s.failedLanguages && s.unchangedLanguages !! s.skippedLanguages
    && s.unchangedLanguages !! s.failedLanguages && s.skippedLanguages !! s.failedLanguages
  }

  /**
   * Requested once each, every language ends in exactly one bucket: the
   * loop keeps the buckets disjoint.
   */
  lemma {:induction false} RunDisjoint(st: RunState, languages: seq<string>, force: bool, maxAgeDays: int,
                                       count: int, incremental: bool, fetch: string -> FetchOutcome,
                                       stampOf: string -> Stamp, now: string)
    requires Shaped(st.doc) && Disjoint(st.summary) && NoDup(languages)
    requires forall i :: 0 <= i < |languages| ==> languages[i] !in Processed(st.summary)
    ensures Disjoint(Run(st, languages, force, maxAgeDays, count, incremental, fetch, stampOf, now).summary)
    decreases |languages|
  {
    if languages != [] {
      var init := languages[..|languages| - 1];
      var last := languages[|languages| - 1];
      RunDisjoint(st, init, force, maxAgeDays, count, incremental, fetch, stampOf, now);
      RunAccountsForAll(st, init, force, maxAgeDays, count, incremental, fetch, stampOf, now);
      assert last !in set l | l in init;
    }
  }

  /** Every requested language ends in a bucket, and nothing else does. */
  lemma {:induction false} RunAccountsForAll(st: RunState, languages: seq<string>, force: bool, maxAgeDays: int,
                                             count: int, incremental: bool, fetch: string -> FetchOutcome,
                                             stampOf: string -> Stamp, now: string)
    requires Shaped(st.doc)
    ensures var r := Run(st, languages, force, maxAgeDays, count, incremental, fetch, stampOf, now);
      Processed(r.summary) == Processed(st.summary) + set l | l in languages
    decreases |languages|
  {
    if languages != [] {
      var init := languages[..|languages| - 1];
      var last := languages[|languages| - 1];
      RunAccountsForAll(st, init, force, maxAgeDays, count, incremental, fetch, stampOf, now);
      assert (set l | l in languages) == (set l | l in init) + {last} by {
        assert languages == init + [last];
      }
    }
  }

  /**
   * What the summary always satisfies: a skip happens only once the flag
   * is set, the flag only after a failure, and new versions are reported
   * only for updated languages, never as an empty set.
   */
  predicate Coherent(s: Summary)
  {
    && (s.skippedLanguages != {} ==> s.rateLimited)
    && (s.rateLimited ==> s.failedLanguages != {})
    && s.newVersions.Keys <= s.updatedLanguages
    && (forall l :: l in s.newVersions ==> s.newVersions[l] != {})
  }

  /** The loop keeps the summary coherent, from the empty one `update_versions` starts with on. */
  lemma {:induction false} RunCoherent(st: RunState, languages: seq<string>, force: bool, maxAgeDays: int,
                                       count: int, incremental: bool, fetch: string -> FetchOutcome,
                                       stampOf: string -> Stamp, now: string)
    requires Shaped(st.doc) && Coherent(st.summary)
    ensures Coherent(Run(st, languages, force, maxAgeDays, count, incremental, fetch, stampOf, now).summary)
    decreases |languages|
  {
    if languages != [] {
      var init := languages[..|languages| - 1];
      RunCoherent(st, init, force, maxAgeDays, count, incremental, fetch, stampOf, now);
    }
  }

  /** The empty summary is coherent, so every summary `update_versions` returns is. */
  lemma UpdateCoherent(doc: Doc, found: map<string, int>, languages: seq<string>, force: bool, maxAgeDays: int,
                       count: int, incremental: bool, fetch: string -> FetchOutcome,
                       stampOf: string -> Stamp, now: string)
    requires Shaped(doc)
    ensures Coherent(Run(RunState(doc, found, EmptySummary), languages, force, maxAgeDays, count,
                         incremental, fetch, stampOf, now).summary)
  {
    RunCoherent(RunState(doc, found, EmptySummary), languages, force, maxAgeDays, count, incremental,
                fetch, stampOf, now);
  }

  /**
   * A day count `timedelta` rejects, met with a cached timestamp that
   * parses, fails the language before the flag is looked at; nothing is
   * fetched, the cache stays as it is, and the flag is not set.
   */
  lemma OverflowFails(st: RunState, language: string, maxAgeDays: int, count: int,
                      incremental: bool, fetch: string -> FetchOutcome, stampOf: string -> Stamp, now: string)
    requires Shaped(st.doc) && UpdateCheck(st.doc, language, maxAgeDays, count, stampOf).Err?
    ensures var r := Step(st, language, false, maxAgeDays, count, incremental, fetch, stampOf, now);
      && r.doc == st.doc && r.found == st.found
      && r.summary == st.summary.(failedLanguages := st.summary.failedLanguages + {language})
  {
    OverflowNotRateLimit(maxAgeDays);
  }

  /**
   * Freshness is checked before the flag: a fresh language is reported
   * unchanged even after the rate limit, and nothing is fetched for it.
   */
  lemma FreshIsUnchanged(st: RunState, language: string, maxAgeDays: int, count: int,
                         incremental: bool, fetch: string -> FetchOutcome, stampOf: string -> Stamp, now: string)
    requires Shaped(st.doc) && UpdateCheck(st.doc, language, maxAgeDays, count, stampOf) == Ok(false)
    ensures var r := Step(st, language, false, maxAgeDays, count, incremental, fetch, stampOf, now);
      && r.doc == st.doc && r.found == st.found
      && language in r.summary.unchangedLanguages
      && r.summary.skippedLanguages == st.summary.skippedLanguages && r.summary.failedLanguages == st.summary.failedLanguages
  {
  }

  /** Once the rate limit was hit nothing is fetched or merged: the cache stays as it is. */
  lemma {:induction false} RateLimitedLeavesCache(st: RunState, languages: seq<string>, force: bool,
                                                  maxAgeDays: int, count: int, incremental: bool,
                                                  fetch: string -> FetchOutcome,
                                                  stampOf: string -> Stamp, now: string)
    requires Shaped(st.doc) && st.summary.rateLimited
    ensures var r := Run(st, languages, force, maxAgeDays, count, incremental, fetch, stampOf, now);
      r.doc == st.doc && r.found == st.found && r.summary.updatedLanguages == st.summary.updatedLanguages
    decreases |languages|
  {
    if languages != [] {
      RateLimitedLeavesCache(st, languages[..|languages| - 1], force, maxAgeDays, count, incremental,
                             fetch, stampOf, now);
    }
  }

  /**
   * Once the rate limit was hit a language that needs fetching is skipped:
   * it joins the skipped bucket and nothing else changes.
   */
  lemma RateLimitedSkips(st: RunState, language: string, force: bool, maxAgeDays: int, count: int,
                         incremental: bool, fetch: string -> FetchOutcome, stampOf: string -> Stamp, now: string)
    requires Shaped(st.doc) && st.summary.rateLimited
    requires force || UpdateCheck(st.doc, language, maxAgeDays, count, stampOf) == Ok(true)
    ensures Step(st, language, force, maxAgeDays, count, incremental, fetch, stampOf, now) ==
      st.(summary := st.summary.(skippedLanguages := st.summary.skippedLanguages + {language}))
  {
  }

  /** A language `get_version_fetcher` does not know fails, unless its cache entry is fresh or the limit was hit. */
  lemma UnsupportedFails(st: RunState, language: string, force: bool, maxAgeDays: int, count: int,
                         incremental: bool, fetch: string -> FetchOutcome, stampOf: string -> Stamp, now: string)
    requires Shaped(st.doc) && language !in Supported && !st.summary.rateLimited
    requires force || UpdateCheck(st.doc, language, maxAgeDays, count, stampOf) == Ok(true)
    ensures var r := Step(st, language, force, maxAgeDays, count, incremental, fetch, stampOf, now);
      && r.doc == st.doc
      && r.summary.failedLanguages == st.summary.failedLanguages + {language}
      && r.summary.updatedLanguages == st.summary.updatedLanguages
  {
  }
}
