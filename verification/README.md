# json2vars-setter, modelled in Dafny

json2vars-setter keeps track of the versions of five languages (Python,
Node.js, Ruby, Go and Rust) for CI matrices. Its core does three things:

- It classifies release tags and picks a "latest" and a "stable" version
  per language. This happens both in the GitHub-tag fetchers (`version/core`,
  `version/fetchers`) and in the older per-language `*_fetch.py` fetchers.
- It merges those picks into a versioned cache document
  (`cache_version_info.py`). This covers `VersionCache`, `update_versions`
  and the version template.
- It projects the picks onto matrix documents. `generate_matrix_json.py` and
  `generate_matrix_json_depend.py` build one matrix per language, and
  `update_matrix_dynamic.py` replaces the version lists of an existing matrix.

The model is in `src/`, one module per source file:

- `Text`, `SortKey` and `Json` hold the Python string operations, the
  ordering of Python sort keys and the in-memory JSON documents the code relies
  on.
- `Utils` and `Base` model the version helpers and the generic tag pipeline.
- `PythonTags`, `NodeTags`, `RubyTags`, `GoTags`, `RustTags` and `PrevMinor`
  model the per-language tag rules.
- `CacheDoc` (the cache document as a value), `Cache` (the `VersionCache`
  class, proved against `CacheDoc`), `Update` and `Template` model the cache.
- `Legacy`, `PythonFetch`, `NodejsFetch`, `RubyFetch`, `GoFetch`, `RustFetch`
  and `VersionFetcher` model the older fetchers and their aggregate.
- `MatrixJson`, `MatrixJsonDepend` and `MatrixDynamic` model the matrix
  generators.

HTTP answers, files, the clock and the date parser are inputs: sequences of
pages, decoded feeds, oracle functions, and a log of the writes performed.
Where the written code and its documentation disagree, the model follows the
code:

- `clean_version` strips every known prefix that matches, in list order, and
  not just one.
- `parse_semver` is anchored only at the start, so "1.2.3.4" gives (1, 2, 3).
- The Ruby tag rule accepts "b2" and "a1" suffixes.
- The version template has no cap on the number of versions and no
  prerelease filter.

## Model

| member | source | states |
|---|---|---|
| Utils.Clean | json2vars_setter/version/core/utils.py:43-63 | the cleaned version has no upper-case letter and no underscore, and neither starts nor ends with whitespace |
| Utils.CleanVersion | json2vars_setter/version/core/utils.py:53-63 | the loop that reassigns `cleaned` once per prefix computes `Clean(version)` |
| Utils.DropPrefixesDigit | json2vars_setter/version/core/utils.py:54-58 | a version that starts with a digit loses no prefix |
| Utils.CleanKnownPrefix | json2vars_setter/version/core/utils.py:54-63 | a known prefix ("v", "python", "go", "node", "ruby", "rust") in front of a digit-led version is removed; only the underscore and strip rules apply to the rest |
| Utils.CleanVersionWord | json2vars_setter/version/core/utils.py:54-58 | "version" is never removed as a whole: "v" is tried first, so "version" followed by digits cleans to "ersion" followed by them |
| Utils.CleanContains | json2vars_setter/version/core/utils.py:55-63 | cleaning adds no text: a dot-free fragment of the cleaned version already occurs in the lower-cased input |
| Utils.ParseSemver | json2vars_setter/version/core/utils.py:66-87 | succeeds exactly when the cleaned version starts with three dot-separated digit runs; otherwise the error is "Invalid version format: " followed by the cleaned version |
| Utils.ParseSemverOf | json2vars_setter/version/core/utils.py:83-87 | the pattern is anchored only at the start: for a cleaned version "a.b.c" plus any rest, the result is the three integers |
| Utils.PrereleaseMarker | json2vars_setter/version/core/utils.py:122-145 | a prerelease version contains one of the ten markers, and that marker holds no dot |
| Utils.IsPrerelease | json2vars_setter/version/core/utils.py:122-145 | `is_prerelease`: a version made of digits and dots alone is never a prerelease |
| Utils.StandardizeDate | json2vars_setter/version/core/utils.py:90-119 | `None` or the empty string gives `None`; any other date gives what the date parser returns |
| Utils.NewRelease | json2vars_setter/version/core/utils.py:10-25 | the stored version is cleaned; the release is a prerelease when flagged so or when the cleaned version has a marker, and a flagged prerelease stays one; the date is standardised; the extra information is kept |
| Utils.ReleaseJson | json2vars_setter/cache_version_info.py:200 | the dictionary of a release holds its cleaned version under "version" |
| Text.Lower | json2vars_setter/version/core/utils.py:55 | the lower-cased string has the same length, each character lower-cased, and no upper-case letter left |
| Text.LStrip | json2vars_setter/version/rust_fetch.py:34 | the result is a suffix of the input that does not start with a stripped character, and everything removed was a stripped character |
| Text.Strip | json2vars_setter/version/core/utils.py:63 | `str.strip()`: a slice of the input with only whitespace cut off either end, neither end of the result being whitespace |
| Text.Find | json2vars_setter/version/ruby_fetch.py:24 | `str.find`: the index of the first occurrence, or none when the text does not occur |
| Text.Replace | json2vars_setter/version/python_fetch.py:35 | `str.replace`: text without the pattern comes back unchanged, and a replacement no longer than the pattern never lengthens the text (against `find` in `ReplaceNoFind` and `ReplaceAtFind`) |
| Text.ReplaceNoFind | json2vars_setter/version/python_fetch.py:35 | where `find` finds nothing, `replace` gives the text back |
| Text.ReplaceAtFind | json2vars_setter/version/python_fetch.py:35 | where `find` finds the pattern at i, `replace` keeps the text before i, puts the replacement for that occurrence and goes on replacing after it |
| Text.ReplaceSplit | json2vars_setter/version/python_fetch.py:35 | text split as before, pattern, after, with the first occurrence at the split, is replaced as before, replacement, then the replaced rest |
| Json.Truthy | json2vars_setter/cache_version_info.py:128-132 | Python truthiness of a JSON value: null, false, zero and empty strings, lists and objects are falsy; a definition, no contract |
| Text.Split | json2vars_setter/cache_version_info.py:509 | splitting gives one more part than there are separators, and no part holds the separator |
| Text.JoinSplit | json2vars_setter/version/ruby_fetch.py:64 | joining the parts of a split with the separator gives the string back |
| Text.PyInt | json2vars_setter/version/nodejs_fetch.py:24 | `int` of a string of digits is its decimal value (everything `int` accepts in `PyIntAccepts`) |
| Text.PyIntAccepts | json2vars_setter/version/nodejs_fetch.py:24 | `int` succeeds iff the stripped text is digits with single underscores between them, optionally after one "+" or "-"; the value is that of the digits, negated after "-" |
| Text.PyPrefix | json2vars_setter/version/go_fetch.py:89 | `s[:n]` is the first `min(n, len(s))` elements, and for a negative `n` drops `-n` elements from the end |
| Text.TripleSplit | json2vars_setter/version/core/utils.py:83-84 | a match splits the string into three digit runs joined by dots followed by the rest |
| Text.TripleSplitOf | json2vars_setter/version/core/utils.py:83-87 | every string of that shape matches, with exactly its three runs and their integer values |
| SortKey.Compare | json2vars_setter/cache_version_info.py:505-511 | the comparison of two keys reports equality exactly for equal keys |
| SortKey.CompareFlip | json2vars_setter/cache_version_info.py:505-511 | swapping the keys flips the comparison |
| SortKey.LtTrans | json2vars_setter/cache_version_info.py:505-511 | "less than" on keys is transitive |
| SortKey.NumericFirstKey | json2vars_setter/cache_version_info.py:221-224 | the key has one element per part of the version with "-" read as ".", a number for an all-digit part and the part itself otherwise |
| SortKey.IntsKey | json2vars_setter/version/rust_fetch.py:70 | every element of the key is a number |
| SortKey.InsertSorted | json2vars_setter/cache_version_info.py:505-511 | inserting into a sorted sequence keeps it sorted |
| SortKey.SortBy | json2vars_setter/cache_version_info.py:505-511 | the sorted sequence is a permutation of the input, ordered by the key, ascending or descending (stability in `SortStable`) |
| SortKey.SortStable | json2vars_setter/version/python_fetch.py:47 | the sort is stable: the elements of any one key keep their input order |
| Base.TargetCount | json2vars_setter/version/core/base.py:62 | `count or 5`: no count, or a count of 0, asks for five tags; any other count is kept |
| Seqs.Filter | json2vars_setter/version/core/base.py:87 | the kept elements all pass the test and come from the list, every element that passes is kept, and nothing is kept exactly when no element passes |
| Seqs.FilterPicks | json2vars_setter/version/core/base.py:87 | the kept list is the elements at the passing indices in list order, each as often as it passes (`Passing`: those indices, increasing, each once) |
| Base.RequestError | json2vars_setter/version/core/base.py:105-116 | a 403 answer mentioning "rate limit exceeded" gives the rate-limit message; any other failure gives "Failed to fetch GitHub tags: " and the error text |
| Base.Paging | json2vars_setter/version/core/base.py:67-103 | the paging loop never requests more than five pages |
| Base.PagingReads | json2vars_setter/version/core/base.py:67-103 | the loop asked for the next page only after a full page, and only while fewer than the target were held after every page it read |
| Base.PageRequested | json2vars_setter/version/core/base.py:67-103 | any page the loop requested was requested with fewer than the target held, and the loop went past it only when it was full |
| Base.PagingStops | json2vars_setter/version/core/base.py:67-116 | the loop keeps the accepted tags of every page it read, and stops at a failed, empty or short page, at the fifth page, or once the target is reached; a failed request raises with `RequestError`'s message |
| Base.GetGithubTags | json2vars_setter/version/core/base.py:58-120 | the imperative paging loop computes `GithubTags` |
| Base.GithubTags | json2vars_setter/version/core/base.py:45-121 | `_get_github_tags`: with a positive target, at most that many tags (the rest in `GithubTagsSpec`) |
| Base.GithubTagsSpec | json2vars_setter/version/core/base.py:58-120 | `_get_github_tags` returns at most the target count of tags, each accepted, as a prefix of the accepted tags in page order, from at most five pages; a failed request raises with `RequestError`'s message |
| Base.ParseAll | json2vars_setter/version/core/base.py:194-200 | every tag that parses contributes its release, ParseErrors are skipped, and the list is empty exactly when no tag parses |
| Base.ParseAllOrder | json2vars_setter/version/core/base.py:194-200 | the k-th release is the parse of the k-th tag that parses: tag order, one release per parsing tag |
| Base.DefaultCriteria | json2vars_setter/version/core/base.py:158-175 | no releases raise "No releases available"; otherwise the first release is both latest and stable |
| Base.FetchVersions | json2vars_setter/version/core/base.py:177-234 | the loop over the tags computes `FetchResult` |
| Base.FetchResult | json2vars_setter/version/core/base.py:177-234 | `fetch_versions`: latest and stable are present together; when absent the recent list is empty and `details` holds "error"; when present the GitHub fetch succeeded and the recent list is no longer than the fetched tags (each error case in `NoTags`, `NoneParse` and `FetchErrors`) |
| Base.FetchResultSpec | json2vars_setter/version/core/base.py:177-234 | `details` holds an error exactly when latest is missing, and then stable and the recent releases are empty too; otherwise latest and stable are the versions the criteria choose from all parsed releases, and the recent releases are the first `recent_count` of them |
| Base.NoTags | json2vars_setter/version/core/base.py:190-191 | a fetch that returns no tags gives only the error "No releases found", with no latest, stable or recent releases |
| Base.FetchErrors | json2vars_setter/version/core/base.py:230-234 | a failed tag request gives only its message and the type "GitHubAPIError"; criteria that raise give their message and "ValueError"; nothing else is set |
| Base.NoneParse | json2vars_setter/version/core/base.py:202-203 | fetched tags none of which parses give only the error "Failed to parse any releases" |
| Base.TagInfo | json2vars_setter/version/fetchers/python.py:79-85 | the additional information of a parsed tag records the tag's name under "tag_name" |
| PrevMinor.FirstPrevMinor | json2vars_setter/version/fetchers/python.py:122-130 | the index of the first release, in list order, whose version has latest's major and the minor just below latest's; none when no release has them |
| PrevMinor.Criteria | json2vars_setter/version/fetchers/python.py:105-136 | no releases raise "No releases available"; otherwise latest is the first release and stable is one of the releases |
| PrevMinor.StableIsFirstPrevMinor | json2vars_setter/version/fetchers/python.py:113-130 | when latest starts with three numbers and some release has latest's major and previous minor, stable is the first such release |
| PrevMinor.StableFallsBack | json2vars_setter/version/fetchers/python.py:114-136 | when latest does not start with three numbers, or no release has its major and previous minor, stable is latest |
| PythonTags.IsStableTag | json2vars_setter/version/fetchers/python.py:23-51 | an accepted name holds neither "a" nor "b" in lower case, since both letters are rejected fragments |
| PythonTags.FilterFunc | json2vars_setter/version/fetchers/python.py:139-153 | the filter with its two regular-expression searches accepts exactly the tags `_is_stable_tag` accepts |
| PythonTags.MarkerAfterDot | json2vars_setter/version/fetchers/python.py:151-152 | a fragment found after a digit and a dot is a fragment the second search finds too |
| PythonTags.ParseTag | json2vars_setter/version/fetchers/python.py:53-86 | a tag without a name raises "No tag name found"; otherwise the version is the name without leading "v"s, cleaned, with no date, the tag's information, and prerelease exactly when the cleaned version has a marker |
| PythonTags.Criteria | json2vars_setter/version/fetchers/python.py:88-136 | the previous-minor rule: latest is the first release and stable one of the releases |
| PythonTags.MarkersCovered | json2vars_setter/version/fetchers/python.py:36-51 | every prerelease marker contains one of the rejected fragments |
| PythonTags.AcceptedTagIsStableRelease | json2vars_setter/version/fetchers/python.py:23-86 | a tag the filter accepts always parses, to a release that is not a prerelease |
| PythonTags.PrereleaseNeedsFragment | json2vars_setter/version/fetchers/python.py:66-79 | a version cleaned from a name is a prerelease only when the lower-cased name holds a rejected fragment |
| RubyTags.IsStableTag | json2vars_setter/version/fetchers/ruby.py:23-52 | an accepted name starts with "v" and has exactly two underscores |
| RubyTags.FilterFunc | json2vars_setter/version/fetchers/ruby.py:140-159 | the filter function accepts exactly the tags `_is_stable_tag` accepts |
| RubyTags.ParseTag | json2vars_setter/version/fetchers/ruby.py:54-87 | a tag without a name raises "No tag name found"; otherwise the version is the name without leading "v"s, underscores turned into dots, cleaned, so it holds no underscore; no date; the tag's information; prerelease exactly when the version has a marker |
| RubyTags.Criteria | json2vars_setter/version/fetchers/ruby.py:89-137 | the previous-minor rule: latest is the first release and stable one of the releases |
| RubyTags.AcceptedTagPrerelease | json2vars_setter/version/fetchers/ruby.py:36-87 | an accepted tag always parses, and parses to a prerelease only when its name holds "nightly" or "experimental", the two markers the fragment list leaves out |
| RubyTags.PrereleaseEscapes | json2vars_setter/version/fetchers/ruby.py:39-75 | a name free of the rejected fragments can yield a prerelease version only through "nightly" or "experimental" |
| RubyTags.MarkerInName | json2vars_setter/version/fetchers/ruby.py:72 | a dot-free fragment of the parsed version already occurs in the lower-cased tag name |
| RubyTags.AcceptsLetterSuffix | json2vars_setter/version/fetchers/ruby.py:36-52 | for any digit runs a, b, c, d the tag "v"+a+"_"+b+"_"+c+"a"+d, and its "b" variant, is accepted: a letter after the last number is not a rejected fragment |
| GoTags.IsStableTag | json2vars_setter/version/fetchers/go.py:19-48 | an accepted name starts with "go" and has exactly two dots once every "go" is removed |
| GoTags.ParseTag | json2vars_setter/version/fetchers/go.py:50-83 | a tag without a name raises "No tag name found"; otherwise the version is the name with every leading 'g' and 'o' dropped, cleaned; no date; the tag's information; prerelease exactly when the version has a marker |
| GoTags.Criteria | json2vars_setter/version/fetchers/go.py:85-133 | the previous-minor rule: latest is the first release and stable one of the releases |
| GoTags.ParseGoTag | json2vars_setter/version/fetchers/go.py:68 | the strip works on characters: any run of 'g's and 'o's before a digit-led rest is dropped, leaving the rest cleaned |
| GoTags.AcceptedTagPrerelease | json2vars_setter/version/fetchers/go.py:32-83 | an accepted tag always parses, and parses to a prerelease only when its name holds "nightly" or "experimental" |
| GoTags.PrereleaseEscapes | json2vars_setter/version/fetchers/go.py:35-71 | a name free of the rejected fragments can yield a prerelease version only through "nightly" or "experimental" |
| GoTags.MarkerInName | json2vars_setter/version/fetchers/go.py:68 | a dot-free fragment of the parsed version already occurs in the lower-cased tag name |
| RustTags.IsStableTag | json2vars_setter/version/fetchers/rust.py:22-42 | an accepted name starts with "1." and has exactly two dots |
| RustTags.FilterFunc | json2vars_setter/version/fetchers/rust.py:142-152 | the filter function accepts exactly the tags `_is_stable_tag` accepts |
| RustTags.ParseTag | json2vars_setter/version/fetchers/rust.py:44-77 | a tag without a name raises "No tag name found"; otherwise the version is the whitespace-trimmed name, cleaned; no date; the tag's information; prerelease exactly when the version has a marker |
| RustTags.Criteria | json2vars_setter/version/fetchers/rust.py:109-139 | no releases raise "No releases available"; otherwise the first release is both latest and stable |
| RustTags.CriteriaIsDefault | json2vars_setter/version/fetchers/rust.py:125-139 | the Rust rule is the base fetcher's default rule |
| RustTags.AcceptedTagPrerelease | json2vars_setter/version/fetchers/rust.py:35-77 | an accepted tag always parses, and parses to a prerelease only when its name holds "snapshot" or "experimental" |
| RustTags.PrereleaseEscapes | json2vars_setter/version/fetchers/rust.py:38-65 | a name free of the rejected fragments can yield a prerelease version only through "snapshot" or "experimental" ("preview" holds the fragment "pre") |
| NodeTags.IsStableTag | json2vars_setter/version/fetchers/nodejs.py:22-50 | an accepted name starts with "v" and has exactly two dots |
| NodeTags.FilterFunc | json2vars_setter/version/fetchers/nodejs.py:287-297 | the filter function accepts exactly the tags `_is_stable_tag` accepts |
| NodeTags.ParseTag | json2vars_setter/version/fetchers/nodejs.py:52-89 | a tag without a name raises "No tag name found"; otherwise the version is the name without leading "v"s, cleaned, and the information is the tag's with "is_lts" false |
| NodeTags.FirstMatching | json2vars_setter/version/fetchers/nodejs.py:132-138 | the first release whose version is the LTS version or whose tag name is "v" followed by it; none when no release matches |
| NodeTags.FirstLtsMatch | json2vars_setter/version/fetchers/nodejs.py:130-138 | the chosen release is in the list and matches one of the LTS versions; there is none exactly when no release matches any LTS version |
| NodeTags.LtsPriority | json2vars_setter/version/fetchers/nodejs.py:130-138 | the LTS versions are tried in order: the pick is the first release matching the first LTS version that any release matches |
| NodeTags.DirectRelease | json2vars_setter/version/fetchers/nodejs.py:146-151 | a directly looked-up tag always parses, and its release is the parsed one with "is_lts" set to true |
| NodeTags.DirectReleaseVersion | json2vars_setter/version/fetchers/nodejs.py:146-149 | the direct release's version is the LTS version cleaned, and its tag name is "v" followed by the LTS version |
| NodeTags.DirectLts | json2vars_setter/version/fetchers/nodejs.py:141-154 | a direct release comes from an LTS version starting "22." whose tag the lookup finds; there is none exactly when the lookup finds no such tag |
| NodeTags.EvenMajors | json2vars_setter/version/fetchers/nodejs.py:156-164 | the kept releases all have an even integer major version and come from the list; the list is empty exactly when no release has one |
| NodeTags.Criteria | json2vars_setter/version/fetchers/nodejs.py:101-175 | no releases raise "No releases available"; otherwise latest is the first release, and stable is a release of the list or the direct release |
| NodeTags.CriteriaPreference | json2vars_setter/version/fetchers/nodejs.py:130-175 | stable is, in this order of preference: `FirstLtsMatch`'s release; else the directly fetched 22.x LTS release, marked LTS; else the first even-major release in list order; else, when no release has an even major, latest |
| NodeTags.StabilityCriteria | json2vars_setter/version/fetchers/nodejs.py:101-175 | `_get_stability_criteria`, run as its three loops, computes `Criteria`: no releases raise, the first release is the latest, and the stable one is the first LTS match, else the direct 22.x lookup, else the first even major, else the latest |
| NodeTags.MatchLtsLoop | json2vars_setter/version/fetchers/nodejs.py:130-138 | the nested loops return exactly `FirstLtsMatch`, so by `LtsPriority` the first release matching the first LTS version that any release matches; nothing is found iff no release matches any LTS version |
| NodeTags.DirectLtsLoop | json2vars_setter/version/fetchers/nodejs.py:143-151 | the loop returns the release built from the first 22.x LTS version whose tag lookup answers; nothing iff every such lookup fails |
| NodeTags.EvenMajorsLoop | json2vars_setter/version/fetchers/nodejs.py:156-164 | the loop collects exactly the releases with an even major, in order |
| NodeTags.LtsCandidates | json2vars_setter/version/fetchers/nodejs.py:191-196 | fails exactly when some entry's version cannot be read; otherwise holds exactly the versions, without leading "v"s, of the entries marked LTS |
| NodeTags.LtsVersions | json2vars_setter/version/fetchers/nodejs.py:184-215 | the result is sorted newest first by integer parts; when not empty it is a permutation of the LTS versions; when every version converts, none is lost; [] when the index holds no LTS entry list or some LTS version has a part `int()` rejects |
| NodeTags.FetchLatestLtsVersions | json2vars_setter/version/fetchers/nodejs.py:191-215 | the collecting loop and the sort compute `LtsVersions` |
| NodeTags.LtsCandidatesFails | json2vars_setter/version/fetchers/nodejs.py:193-215 | one entry whose version cannot be read makes the whole collection fail |
| CacheDoc.DefaultDoc | json2vars_setter/cache_version_info.py:76-82 | the fresh cache document has no languages, a version count of 0 and a well-formed shape |
| CacheDoc.VersionCountOf | json2vars_setter/cache_version_info.py:84-89 | a non-zero count is exactly the number stored under `metadata.version_count` |
| CacheDoc.ExistingVersions | json2vars_setter/cache_version_info.py:190-197 | a value is an existing version iff some stored release is an object whose "version" is that value |
| CacheDoc.FreshReleases | json2vars_setter/cache_version_info.py:203-206 | a fetched release is kept iff its version is not already stored; never longer than the fetched list |
| CacheDoc.VersionsOf | json2vars_setter/cache_version_info.py:203-206 | the set holds exactly the versions of the given releases |
| CacheDoc.Serialized | json2vars_setter/cache_version_info.py:200 | one stored object per fetched release, position for position |
| CacheDoc.NewVersionsFor | json2vars_setter/cache_version_info.py:190-206 | a version is reported new iff it was fetched and no stored release (incremental mode only) carries it |
| CacheDoc.MergedReleases | json2vars_setter/cache_version_info.py:209-230 | non-incremental: the fetched list; incremental: stored then fresh releases, and with a positive count sorted newest first and cut to `min(count, length)` as a sub-multiset, no dropped release sorting ahead of a kept one; raises exactly when the count is positive and some entry lacks a string version or two keys cannot be compared, with the KeyError message in the first case |
| CacheDoc.Newest | json2vars_setter/cache_version_info.py:218-226 | `sorted(..., reverse=True)[:count]`: `min(count, length)` releases, sorted newest first, a sub-multiset, and none dropped sorts ahead of one kept |
| CacheDoc.Prepared | json2vars_setter/cache_version_info.py:183-187 | the language gets an entry; its existing entry, every other language and every other top-level key are unchanged |
| CacheDoc.Kept | json2vars_setter/cache_version_info.py:233-247 | a fetched value wins; a missing one falls back to the stored value, else null |
| CacheDoc.UpdatedEntry | json2vars_setter/cache_version_info.py:250-257 | the entry gains exactly latest, stable, recent_releases and last_updated; every other key is kept |
| CacheDoc.UpdatedMetadata | json2vars_setter/cache_version_info.py:259-270 | the metadata is stamped with the time, and only `last_updated` and `version_count` can change |
| CacheDoc.Merge | json2vars_setter/cache_version_info.py:164-275 | a merge keeps the document well formed |
| CacheDoc.MergedEntry | json2vars_setter/cache_version_info.py:183-270 | after a successful merge the language is present with the updated entry, and the metadata is updated |
| CacheDoc.MergeKeepsLatestStable | json2vars_setter/cache_version_info.py:233-257 | latest and stable are always present; a fetched value replaces them, and a `None` never erases a stored one |
| CacheDoc.MergeVersionCount | json2vars_setter/cache_version_info.py:265-270 | version_count becomes the larger of the stored count and a positive `count`; it never falls |
| CacheDoc.MergeFrame | json2vars_setter/cache_version_info.py:183-270 | a merge adds only its own language, leaves every other language's entry alone and touches no top-level key but "languages" and "metadata" |
| CacheDoc.MergedDoc | json2vars_setter/cache_version_info.py:183-270 | the merged document is the prepared one with the language's entry replaced and "metadata" present |
| CacheDoc.NonIncrementalReplaces | json2vars_setter/cache_version_info.py:200-230 | without incremental mode recent_releases becomes exactly the fetched list and every fetched version is new |
| CacheDoc.IncrementalKeeps | json2vars_setter/cache_version_info.py:209-219 | incremental without a count keeps every stored release in order as a prefix and appends the fresh ones |
| CacheDoc.ReMergeFindsNothing | json2vars_setter/cache_version_info.py:190-230 | merging the same fetched releases again incrementally finds no new version, unless the first merge cut the list |
| Cache.VersionCache.constructor | json2vars_setter/cache_version_info.py:46-82 | the data is the loaded document or the default one, the count is read from it, and no new versions are recorded |
| Cache.VersionCache.GetVersionCount | json2vars_setter/cache_version_info.py:84-89 | returns the stored `metadata.version_count`, 0 when it is absent |
| Cache.VersionCache.IsUpdateNeeded | json2vars_setter/cache_version_info.py:103-162 | answers `UpdateCheck`: needed when there are no languages, no entry, no releases, fewer than a positive request or no usable timestamp; the OverflowError of a maximum age beyond 999999999 days once a timestamp parses; otherwise whether the timestamp is older than the maximum age |
| CacheDoc.UpdateCheck | json2vars_setter/cache_version_info.py:103-162 | when no update is needed the language has an entry, at least a positive requested count of releases and a naive timestamp no older than the maximum age; an error is the OverflowError text of a maximum age beyond 999999999 days |
| CacheDoc.UpdateCheckRaises | json2vars_setter/cache_version_info.py:151-162 | the check raises iff it reaches the timestamp, the timestamp is a string that parses, and the maximum age is beyond 999999999 days either way |
| CacheDoc.UpdateNeededMonotone | json2vars_setter/cache_version_info.py:103-162 | when an update is needed at a larger maximum age and a smaller requested count, it is not reported unneeded at the smaller age and larger count |
| Cache.VersionCache.MergeVersions | json2vars_setter/cache_version_info.py:164-275 | the new data is `Merge` of the old; it returns (any new version?, the new versions) and records their number for the language, or reports the sort's exception and records nothing |
| Cache.VersionCache.Prepare | json2vars_setter/cache_version_info.py:183-187 | the data becomes `Prepared` of the old data |
| Cache.VersionCache.Store | json2vars_setter/cache_version_info.py:233-270 | the data becomes `Stored`: the updated entry, then the updated metadata |
| CacheDoc.Stored | json2vars_setter/cache_version_info.py:233-270 | the document after a merge: the language's entry replaced by the updated entry, the metadata updated, every other top-level key kept |
| Cache.VersionCache.StoreEntry | json2vars_setter/cache_version_info.py:233-257 | only the language's entry changes, to `UpdatedEntry` of the old one |
| Cache.VersionCache.StoreMetadata | json2vars_setter/cache_version_info.py:259-270 | only "metadata" changes, to `UpdatedMetadata` of the old one |
| Cache.CollectExisting | json2vars_setter/cache_version_info.py:190-197 | returns the stored releases (incremental only) and exactly their versions |
| Cache.CollectNew | json2vars_setter/cache_version_info.py:203-206 | returns exactly the fetched versions not stored yet |
| Cache.AppendFresh | json2vars_setter/cache_version_info.py:209-219 | returns the stored releases followed by the fresh fetched ones |
| Cache.MergeLists | json2vars_setter/cache_version_info.py:209-230 | returns `MergedReleases`, the sort's exception included |
| Update.Fetched | json2vars_setter/cache_version_info.py:278-303 | the five known languages are fetched; any other raises "Unsupported language: <language>" |
| Update.Failed | json2vars_setter/cache_version_info.py:382-391 | the language joins the failed bucket; the flag is set exactly when it was set or the lowered message holds "rate limit exceeded"; nothing else changes |
| Update.Fail | json2vars_setter/cache_version_info.py:382-388 | the `except` branch of the loop body leaves the summary `Failed` gives |
| Update.PassOf | json2vars_setter/cache_version_info.py:341-364 | nothing is fetched iff the entry is fresh and `force` is off; a raising freshness check fails the language with its message; a skip only after the rate limit; once the check passes, a fetch only before it and an unknown language fails with the unsupported message |
| Update.Tally | json2vars_setter/cache_version_info.py:345-391 | per way the pass ended: up to date joins unchanged; a rate-limit skip joins skipped; a fetch or merge exception is `Failed`; a merge joins updated, with its new versions, or unchanged when it found none; nothing else changes, a coherent summary stays coherent and disjoint buckets stay disjoint for a new language |
| Update.Step | json2vars_setter/cache_version_info.py:341-391 | one pass keeps the cache well formed, adds exactly the language to the buckets and keeps the summary coherent |
| Update.Run | json2vars_setter/cache_version_info.py:341-391 | the loop keeps the cache well formed, and the rate-limit flag, once set, stays set |
| Update.UpdateVersions | json2vars_setter/cache_version_info.py:306-406 | the cache's data and new-version counts, and the returned summary, are those of `Run` over the languages from the empty summary |
| Update.Process | json2vars_setter/cache_version_info.py:342-391 | one loop body changes the cache and the summary as `Step` does |
| Update.MergeInto | json2vars_setter/cache_version_info.py:362-388 | the cache takes the merged document and, after a merge, that language's new-version count; a raised merge fails the language, a merge with new versions marks it updated with them, one without marks it unchanged |
| Update.RunAccountsForAll | json2vars_setter/cache_version_info.py:341-391 | the four buckets together hold exactly the requested languages |
| Update.RunCoherent | json2vars_setter/cache_version_info.py:341-391 | skips only after the flag, the flag only after a failure, new versions only for updated languages and never empty |
| Update.UpdateCoherent | json2vars_setter/cache_version_info.py:333-406 | every summary `update_versions` returns is coherent |
| Update.RunDisjoint | json2vars_setter/cache_version_info.py:341-391 | for distinct new languages the four buckets stay pairwise disjoint: each requested language ends in exactly one |
| Update.RateLimitedSkips | json2vars_setter/cache_version_info.py:351-355 | once the rate limit was hit, a language that needs fetching joins skipped and nothing else changes |
| Update.FreshIsUnchanged | json2vars_setter/cache_version_info.py:345-349 | an entry whose check answers "not needed", without `force`, is reported unchanged, even after the rate limit, and the cache is untouched |
| Update.OverflowFails | json2vars_setter/cache_version_info.py:345-388 | a freshness check that raises OverflowError fails the language, never sets the rate-limit flag and leaves the cache alone |
| CacheDoc.OverflowNotRateLimit | json2vars_setter/cache_version_info.py:154 | the OverflowError text holds no "rate limit exceeded" in any case |
| Text.NatStringValue | json2vars_setter/cache_version_info.py:154 | the decimal digits `str` writes for a natural number read back as that number |
| Update.RateLimitedLeavesCache | json2vars_setter/cache_version_info.py:351-355 | once the rate limit was hit no further language changes the cache or is reported updated |
| Update.UnsupportedFails | json2vars_setter/cache_version_info.py:299-300 | an unknown language that needs an update before the rate limit fails and leaves the cache alone |
| Template.ReleaseVersions | json2vars_setter/cache_version_info.py:489-494 | the collected versions are duplicate-free and are exactly the versions of the well-formed releases |
| Template.Candidates | json2vars_setter/cache_version_info.py:489-502 | duplicate-free; a value is a candidate iff it is a release version, the truthy stable or the truthy latest |
| Template.SortedVersions | json2vars_setter/cache_version_info.py:505-511 | raises iff a candidate is not a string or two keys cannot be compared; otherwise the candidates, each once, ordered by the numeric-first key in the requested direction |
| Template.Existing | json2vars_setter/cache_version_info.py:516-530 | with `keep_existing` the existing template's list for the language is kept, otherwise `[]`; anything but `[]` comes from the existing template |
| Template.EntryFor | json2vars_setter/cache_version_info.py:487-530 | a language with releases gets its sorted versions; one without takes the existing-template branch |
| Template.SelectedLanguages | json2vars_setter/cache_version_info.py:482-485 | a cached language is listed iff no filter is given, the filter is empty, or the filter names it |
| Template.Preserved | json2vars_setter/cache_version_info.py:455-472 | the existing file's "os" and "ghpages_branch" win over the defaults |
| Template.VersionTemplate | json2vars_setter/cache_version_info.py:435-535 | the template is written iff every listed language's list can be computed; it has exactly the keys os, versions and ghpages_branch, and versions holds exactly the selected languages |
| Template.Lists | json2vars_setter/cache_version_info.py:482-530 | each selected language maps to its computed list, and no other language appears |
| Template.GenerateVersionTemplate | json2vars_setter/cache_version_info.py:435-535 | returns `VersionTemplate` of the cache and the existing template |
| Template.ListAll | json2vars_setter/cache_version_info.py:482-530 | succeeds iff every selected language's list can be computed, and then returns `Lists` |
| Template.ListFor | json2vars_setter/cache_version_info.py:487-530 | returns `EntryFor` of the language's cache entry |
| Template.CollectVersions | json2vars_setter/cache_version_info.py:489-494 | returns `ReleaseVersions` of the releases |
| Template.TemplateList | json2vars_setter/cache_version_info.py:482-530 | a listed language with releases gets its release versions plus a truthy stable and latest, each once, sorted in the requested order; one without keeps the existing list or gets `[]` |
| MatrixDynamic.IsValidExactly | json2vars_setter/update_matrix_dynamic.py:30-40 | a strategy is valid iff it is "stable", "latest" or "both" |
| MatrixDynamic.VersionsFromStrategy | json2vars_setter/update_matrix_dynamic.py:71-98 | an invalid strategy raises "Invalid strategy: <strategy>"; otherwise at most two versions, no duplicate, exactly the truthy stable (when the strategy takes it) and the truthy latest (when it takes it), stable first |
| MatrixDynamic.EmptySelection | json2vars_setter/update_matrix_dynamic.py:88-98 | a valid strategy selects nothing iff every field it reads is `None` or empty |
| MatrixDynamic.Selection | json2vars_setter/update_matrix_dynamic.py:193-225 | a list is produced only when it is non-empty, the strategy is valid and the language is one `get_version_fetcher` knows |
| MatrixDynamic.WithVersions | json2vars_setter/update_matrix_dynamic.py:175-177 | "versions" is added as `{}` when missing; every existing key is kept |
| MatrixDynamic.UpdateMatrixJson | json2vars_setter/update_matrix_dynamic.py:152-230 | each language with a non-empty selection gets exactly that list; every other list and every other top-level key is unchanged; a "versions" that is not an object is left as it is |
| MatrixDynamic.ReplacedLists | json2vars_setter/update_matrix_dynamic.py:193-225 | the replaced languages hold their selections; every other list is kept; no other key appears |
| MatrixDynamic.UnnamedUntouched | json2vars_setter/update_matrix_dynamic.py:193-222 | a language no strategy names keeps its list |
| MatrixDynamic.UpdateMatrix | json2vars_setter/update_matrix_dynamic.py:175-225 | returns `UpdateMatrixJson` of the document |
| MatrixDynamic.ReplaceAll | json2vars_setter/update_matrix_dynamic.py:193-225 | the loop leaves exactly `ReplacedLists` |
| MatrixDynamic.WithNewline | json2vars_setter/update_matrix_dynamic.py:136-140 | the text ends in a newline, extends the content by at most one character, and is the content itself when that already ends in one |
| MatrixDynamic.ExactlyOneNewline | json2vars_setter/update_matrix_dynamic.py:138-140 | content without a trailing newline gets exactly one |
| MatrixDynamic.WithNewlineIdempotent | json2vars_setter/update_matrix_dynamic.py:138-140 | adding the newline twice is the same as once |
| VersionFetcher.Vars | json2vars_setter/version/version_fetcher.py:65-69 | a legacy result becomes an object with exactly latest, stable and details |
| VersionFetcher.VersionOutput | json2vars_setter/version/version_fetcher.py:28-48 | an empty result gives `None`; LATEST and STABLE give the stored field; BOTH gives one or two distinct truthy versions, latest first, and `None` iff neither is truthy |
| VersionFetcher.BothListsStable | json2vars_setter/version/version_fetcher.py:43-48 | with BOTH a truthy stable is always listed, as a second entry exactly when a different truthy latest exists |
| VersionFetcher.FirstRaised | json2vars_setter/version/version_fetcher.py:55-61 | the index found is the first fetch that raised; `None` means every fetch returned |
| VersionFetcher.FetchAllVersions | json2vars_setter/version/version_fetcher.py:51-87 | the first fetch that raises makes the result exactly its error and type name; otherwise "versions" lists exactly the languages whose output is not `None`, and "details" holds every language's details |
| VersionFetcher.Aggregate | json2vars_setter/version/version_fetcher.py:81-84 | the result has exactly "versions" and "details", holding the given maps |
| VersionFetcher.OutputList | json2vars_setter/version/version_fetcher.py:64-70 | each language's output is `get_version_output` of its fetcher's fields, in the order python, ruby, nodejs, go, rust |
| VersionFetcher.AllOutputs | json2vars_setter/version/version_fetcher.py:64-70 | the dict literal maps exactly the five languages, each to its own output |
| VersionFetcher.Outputs | json2vars_setter/version/version_fetcher.py:82 | a language is kept iff its output is not `None`, with that output, and no other key appears |
| VersionFetcher.Details | json2vars_setter/version/version_fetcher.py:73-83 | every language's details are kept and no other key appears |
| VersionFetcher.StableListsFound | json2vars_setter/version/version_fetcher.py:40-82 | with STABLE a language is listed iff its fetcher found a stable version, and then with that version |
| VersionFetcher.StableOutput | json2vars_setter/version/version_fetcher.py:40-69 | with STABLE a fetcher's output is its stable version, `None` when it found none |
| Legacy.IntTupleKey | json2vars_setter/version/nodejs_fetch.py:19-26 | the key is the integer of every '.'-part when all parse, and (0, 0, 0) otherwise; it holds integers only |
| Legacy.IntsOf | json2vars_setter/version/nodejs_fetch.py:24 | one integer per part, each the value `int` gives it |
| Legacy.NumKeysTotal | json2vars_setter/version/nodejs_fetch.py:24 | two integer tuples are always equal or ordered one way or the other, so sorting by them never raises |
| Legacy.SortedHead | json2vars_setter/version/nodejs_fetch.py:44 | in a descending sort nothing after position k has a greater key than the element at k |
| Legacy.SortedTop | json2vars_setter/version/nodejs_fetch.py:44-47 | the first element of a descending sort comes from the list and has its greatest key |
| Legacy.FirstWhere | json2vars_setter/version/python_fetch.py:55 | the index found is the first element that satisfies the test; `None` means none does |
| Legacy.SortedFirstWhere | json2vars_setter/version/python_fetch.py:47-55 | the first element of a descending sort that passes the test exists iff one passes, and has the greatest key among those that pass |
| Legacy.RunEnd | json2vars_setter/version/ruby_fetch.py:30-31 | the run from i holds only matching characters and stops at the end or at a non-matching one |
| Legacy.Positions | json2vars_setter/version/ruby_fetch.py:46 | exactly the matching positions, each once, in increasing order |
| PythonFetch.CandidateOf | json2vars_setter/version/python_fetch.py:35-43 | the version is the name without "Python ", the date is the release date, and it is stable iff none of "a", "b", "rc" occurs in the lower-cased version |
| PythonFetch.Published | json2vars_setter/version/python_fetch.py:32-44 | a candidate is listed iff it comes from a published release |
| PythonFetch.CollectCandidates | json2vars_setter/version/python_fetch.py:32-44 | the loop leaves exactly `Published` of the feed |
| PythonFetch.DateKeyOrder | json2vars_setter/version/python_fetch.py:47 | the sort key orders candidates exactly as their date strings compare |
| PythonFetch.FetchPythonVersions | json2vars_setter/version/python_fetch.py:19-63 | a failed download leaves only the error; otherwise the latest exists iff something is published and is the first in feed order among the published candidates with the latest date, and the stable exists iff some published version is stable and is the first in feed order among the stable ones with the latest stable date, each stored with its info |
| PythonFetch.Select | json2vars_setter/version/python_fetch.py:47-58 | the latest pick is the first candidate in feed order among those with the latest date, and the stable pick the first in feed order among the stable ones with the latest stable date, as `FetchPythonVersions` states |
| PythonFetch.PickStable | json2vars_setter/version/python_fetch.py:55-58 | no stable pick means no candidate is stable; a pick is the first stable candidate in feed order among those with the latest stable date |
| PythonFetch.Details | json2vars_setter/version/python_fetch.py:44-58 | the details hold the source and the fetch time, the latest's stored form under "latest_info" and, when there is a stable pick, its stored form under "stable_info" |
| PythonFetch.LatestOfSorted | json2vars_setter/version/python_fetch.py:47-52 | the first of the date-sorted candidates has the latest date |
| PythonFetch.StableOfSorted | json2vars_setter/version/python_fetch.py:47-58 | the first stable candidate after the sort exists iff one is stable, and is the newest stable one |
| PythonFetch.LatestFirst | json2vars_setter/version/python_fetch.py:47-52 | the head of the date sort is the first candidate in feed order among those with the latest date |
| PythonFetch.StableFirst | json2vars_setter/version/python_fetch.py:47-58 | the first stable candidate after the date sort is the first stable one in feed order among those with the latest stable date |
| PythonFetch.FirstNewestUnique | json2vars_setter/version/python_fetch.py:50-52 | at most one candidate is first in feed order among the newest, so the latest pick is determined |
| PythonFetch.FirstNewestStableUnique | json2vars_setter/version/python_fetch.py:55-58 | at most one candidate is first in feed order among the newest stable ones, so the stable pick is determined |
| NodejsFetch.VersionSortKey | json2vars_setter/version/nodejs_fetch.py:19-26 | the key of a version whose parts are not all integers is (0, 0, 0) |
| NodejsFetch.Recent | json2vars_setter/version/nodejs_fetch.py:74-75 | at most five versions, the first ones of the list, leading 'v's stripped |
| NodejsFetch.FetchNodejsVersions | json2vars_setter/version/nodejs_fetch.py:29-82 | a failed download leaves the error and its type; an empty feed sets nothing; otherwise the latest has the greatest key, the stable exists iff some release is LTS and has the greatest key among those, and the recent lists are stored |
| NodejsFetch.Select | json2vars_setter/version/nodejs_fetch.py:42-76 | the picks and the recent lists of a non-empty feed, as `FetchNodejsVersions` states |
| NodejsFetch.Details | json2vars_setter/version/nodejs_fetch.py:38-76 | the details hold the source, the fetch time, the given latest info, the stable info when there is one, and the recent lists |
| NodejsFetch.PickStable | json2vars_setter/version/nodejs_fetch.py:58-63 | no pick means no release is LTS; a pick is an LTS release with the greatest key among the LTS ones |
| NodejsFetch.LatestOfRanked | json2vars_setter/version/nodejs_fetch.py:44-48 | the first of the sorted feed has the greatest key |
| NodejsFetch.LtsOfRanked | json2vars_setter/version/nodejs_fetch.py:58-62 | the first of the sorted LTS releases is an LTS release with the greatest key among them |
| NodejsFetch.StableNotAboveLatest | json2vars_setter/version/nodejs_fetch.py:43-63 | when a stable version is picked a latest one is too, and the stable's key is never above the latest's |
| NodejsFetch.RecentDescending | json2vars_setter/version/nodejs_fetch.py:74 | the recent "all" list has min(5, feed length) entries, each the stripped version of the release at its place in the sorted feed, in descending key order |
| NodejsFetch.RecentLtsDescending | json2vars_setter/version/nodejs_fetch.py:75 | the recent "lts" list has at most five entries, each the stripped version of an LTS release at its place in the sorted LTS list, in descending key order |
| RubyFetch.VersionAt | json2vars_setter/version/ruby_fetch.py:46 | the captured version occurs after "- " at the entry, is exactly three digit runs joined by dots, and its last run is maximal: no digit follows it |
| RubyFetch.EntryPositions | json2vars_setter/version/ruby_fetch.py:46 | exactly the positions where "- X.Y.Z" matches, in document order |
| RubyFetch.FindAll | json2vars_setter/version/ruby_fetch.py:46 | one version per entry position, in document order |
| RubyFetch.SectionContent | json2vars_setter/version/ruby_fetch.py:22-40 | `None` iff "<section>:" does not occur; otherwise the text from that header to the first `\n\w+:` after it, or to the end when there is none |
| RubyFetch.ExtractVersionsFromSection | json2vars_setter/version/ruby_fetch.py:20-48 | [] when the header is missing or the section holds no `:\s*\n\s+- \d+` list; otherwise every "- X.Y.Z" entry of the section, in order; each version is X.Y.Z and occurs in the text after the header |
| RubyFetch.EntriesInContent | json2vars_setter/version/ruby_fetch.py:40-46 | each extracted version occurs in the whole text after the section's header |
| RubyFetch.FirstVersionGiven | json2vars_setter/version/ruby_fetch.py:87-102 | an extracted version is never the empty string, so a preview version always counts as a latest |
| RubyFetch.FetchRubyVersions | json2vars_setter/version/ruby_fetch.py:51-113 | a failed download leaves the error and its type; otherwise the four lists are stored, the latest is the first preview version else the first stable one, and the stable is the first stable version, absent iff the stable list is empty |
| RubyFetch.SectionDetails | json2vars_setter/version/ruby_fetch.py:60-84 | the details hold the source, the fetch time, the fifteen-line preview and the four lists, and no pick yet |
| RubyFetch.Pick | json2vars_setter/version/ruby_fetch.py:86-107 | the latest is the first preview version, else the first stable one; the stable is the first stable version; other details are unchanged |
| GoFetch.VersionSortKey | json2vars_setter/version/go_fetch.py:19-25 | the key is the integer tuple of the version after every leading 'g' and 'o' is stripped |
| GoFetch.Versions | json2vars_setter/version/go_fetch.py:95 | one stripped version per release, in order |
| GoFetch.OfMinor | json2vars_setter/version/go_fetch.py:93-99 | the branch list holds only versions of that minor, taken from the list |
| GoFetch.Grouped | json2vars_setter/version/go_fetch.py:93-99 | one group per minor that occurs, holding that minor's versions in order |
| GoFetch.GroupByMinor | json2vars_setter/version/go_fetch.py:93-99 | the loop leaves exactly `Grouped` of the versions |
| GoFetch.OfMinorDescending | json2vars_setter/version/go_fetch.py:93-99 | a branch taken from descending versions is descending |
| GoFetch.Branches | json2vars_setter/version/go_fetch.py:101-104 | each branch keeps the first three of its versions, and no branch is added or dropped |
| GoFetch.BranchesShape | json2vars_setter/version/go_fetch.py:93-104 | one branch per minor of the feed, each holding one to three versions of that minor, the first ones, in descending order |
| GoFetch.FetchGoVersions | json2vars_setter/version/go_fetch.py:28-110 | a failed download leaves the error and its type; an empty feed sets nothing; otherwise the latest has the greatest key, the stable exists iff there are two releases or more and is the second in descending order, and the history and branches are stored |
| GoFetch.Select | json2vars_setter/version/go_fetch.py:41-104 | the picks, history and branches of a non-empty feed, as `FetchGoVersions` states |
| GoFetch.Picked | json2vars_setter/version/go_fetch.py:43-68 | the first two of the sorted feed satisfy the latest and stable picks |
| GoFetch.Details | json2vars_setter/version/go_fetch.py:37-104 | the details hold the source, the fetch time, the given latest info, the stable info when there is one, the history and the branches |
| GoFetch.RankedPicks | json2vars_setter/version/go_fetch.py:43-68 | the first of the sorted feed has the greatest key; the second has the greatest key once the first is removed |
| RustFetch.RecentTags | json2vars_setter/version/rust_fetch.py:47-49 | at most five tags, the first ones, leading 'v's stripped |
| RustFetch.HeadingVersion | json2vars_setter/version/rust_fetch.py:65-66 | the captured version is exactly three digit runs joined by dots |
| RustFetch.FindVersions | json2vars_setter/version/rust_fetch.py:64-66 | one version per "Version X.Y.Z" heading, in document order |
| RustFetch.FetchRustVersions | json2vars_setter/version/rust_fetch.py:20-89 | a non-empty GitHub list decides: latest is the first tag, stable the first non-prerelease tag else the latest; otherwise a failed RELEASES.md download leaves only the error, and a fetched one gives latest = stable = a greatest heading version |
| RustFetch.GithubInfo | json2vars_setter/version/rust_fetch.py:31-50 | the GitHub picks, release date and recent tags |
| RustFetch.ReleasesMdInfo | json2vars_setter/version/rust_fetch.py:56-85 | the fallback picks: present iff a heading exists, a greatest version, with the first five in descending order as recent |
| RustFetch.MdPicked | json2vars_setter/version/rust_fetch.py:68-74 | the first of the sorted headings is one of them and has the greatest key |
| RustFetch.MdDetails | json2vars_setter/version/rust_fetch.py:62-83 | the details name RELEASES.md as the source and hold the recent versions |
| RustFetch.RecentDescending | json2vars_setter/version/rust_fetch.py:70-83 | the fallback's recent versions are at most five headings, in descending order |
| MatrixJson.PathJoin | json2vars_setter/generate_matrix_json.py:83 | the path ends in the file name; with a relative name and a directory it starts with the directory and is longer than the name |
| MatrixJson.BaseMatrix | json2vars_setter/generate_matrix_json.py:28-42 | without an input file the defaults; a decoded file's keys replace the defaults key by key; the call raises iff the file does not decode, or is missing and its path has no directory part; "versions" is always present |
| MatrixJson.FetchedShape | json2vars_setter/version/version_fetcher.py:81-87 | the fetched document's "versions", when present, is an object, and it is present iff no fetcher raised |
| MatrixJson.LanguagesToProcess | json2vars_setter/generate_matrix_json.py:45-53 | the requested language; else with an input file the keys of the base's "versions", raising when it is not an object; else the fetched languages, raising when the fetch reported an error |
| MatrixJson.Wrapped | json2vars_setter/generate_matrix_json.py:68-72 | a version string becomes a one-element list; any other value is kept as it is |
| MatrixJson.MatrixFor | json2vars_setter/generate_matrix_json.py:63-72 | the matrix has the base's keys, every key but "versions" as in the base, and "versions" holding exactly that language's wrapped version |
| MatrixJson.Matrices | json2vars_setter/generate_matrix_json.py:58-96 | exactly the processed languages that have a fetched version get a matrix, each its own |
| MatrixJson.Generated | json2vars_setter/generate_matrix_json.py:9-103 | every language in the result has a fetched version, and with a requested language that is the only one |
| MatrixJson.EveryFetchedLanguage | json2vars_setter/generate_matrix_json.py:45-61 | with neither a language nor an input file, and no fetch error, the result holds exactly the fetched languages |
| MatrixJson.FetchedVersions | json2vars_setter/generate_matrix_json.py:45-61 | the same for any fetched document holding "versions" |
| MatrixJson.RequestedLanguage | json2vars_setter/generate_matrix_json.py:45-72 | a requested language gets a matrix iff a version was fetched for it, and then its "versions" holds only that language |
| MatrixJson.InputFileLanguages | json2vars_setter/generate_matrix_json.py:36-61 | with an input file and no language: no "versions" in the file gives an empty result; an object gives its languages that have a fetched version; anything else raises |
| MatrixJson.FetchErrorYieldsNoMatrix | json2vars_setter/generate_matrix_json.py:45-61 | after a fetch error no matrix is produced: the result is empty, and the call raises when neither a language nor an input file is given |
| MatrixJson.NoVersionsNoMatrix | json2vars_setter/generate_matrix_json.py:45-61 | any fetched document without "versions" gives no matrix: the result is empty, and the call raises when neither a language nor an input file is given |
| MatrixJson.Targets | json2vars_setter/generate_matrix_json.py:74-94 | a language is written to the output directory's file (per-language name with a requested language, "matrix-stable.json" otherwise), then to the input file, each only when given |
| MatrixJson.SharedTargets | json2vars_setter/generate_matrix_json.py:80-82 | without a requested language every language is written to the same files |
| MatrixJson.WritesFor | json2vars_setter/generate_matrix_json.py:74-94 | one write per target, in target order, each holding the language's matrix |
| MatrixJson.AgreeStep | json2vars_setter/generate_matrix_json.py:74-96 | recording a new language's writes keeps the writes and the matrices in agreement |
| MatrixJson.GenerateMatrixJson | json2vars_setter/generate_matrix_json.py:9-103 | the result is `Generated`; nothing is written when it raises; every write holds a result matrix at one of its targets and every target got its write; without a requested language every write goes to a path every language shares |
| MatrixJson.Process | json2vars_setter/generate_matrix_json.py:58-96 | the loop returns `Matrices` and writes that agree with them |
| MatrixJson.Save | json2vars_setter/generate_matrix_json.py:74-94 | the log gains exactly `WritesFor` the language |
| MatrixJsonDepend.FileName | json2vars_setter/generate_matrix_json_depend.py:58-61 | with a requested language the name is "matrix-" + language + "-stable.json"; otherwise "matrix-stable.json" |
| MatrixJsonDepend.FileNameRoundTrip | json2vars_setter/generate_matrix_json_depend.py:58-61 | the language can be read back from a per-language file name |
| MatrixJsonDepend.FileNameInjective | json2vars_setter/generate_matrix_json_depend.py:58-61 | distinct languages get distinct per-language file names |
| MatrixJsonDepend.FilePathShape | json2vars_setter/generate_matrix_json_depend.py:58-67 | the path ends in the file name, is the name alone without an output directory, and starts with the directory when one is given |
| MatrixJsonDepend.GeneratedDepend | json2vars_setter/generate_matrix_json_depend.py:9-76 | the call raises iff the fetched document lacks "versions"; otherwise the result holds the fetched languages (or the requested one when it was fetched), each with its matrix on the default base |
| MatrixJsonDepend.RaisesOnFetchError | json2vars_setter/generate_matrix_json_depend.py:20-44 | the call raises exactly when a fetcher raised |
| MatrixJsonDepend.GenerateMatrixJsonDepend | json2vars_setter/generate_matrix_json_depend.py:9-76 | the result is `GeneratedDepend` and is `None` iff a fetcher raised; nothing is written then; otherwise each language is written exactly once, to its path, with its matrix |
| MatrixJsonDepend.ProcessDepend | json2vars_setter/generate_matrix_json_depend.py:41-74 | the loop returns `Matrices` and writes each of them exactly once |
| MatrixJsonDepend.OnceStep | json2vars_setter/generate_matrix_json_depend.py:69-74 | recording a new language keeps every language written exactly once |

## Left out

- HTTP requests, the GITHUB_TOKEN header and the downloads of the `*_fetch.py` fetchers. Pages, decoded feeds, the Node.js LTS list and the direct tag lookup are inputs or oracle functions.
- Reading and writing files. This covers `_load_cache` and `save`, the template write, `load_json_file`, the backup copy in `update_matrix_dynamic.py` and `os.makedirs`. Documents are values; the matrix generators record their `json.dump` calls as a write log.
- `save_json_file` is modelled only through the text it writes (`MatrixDynamic.WithNewline`). The dry-run mode and the changes log of `update_matrix_dynamic.py` are print-only and left out.
- The clock and date parsing. An oracle reads each stored timestamp as a `Stamp`: text `fromisoformat` rejects, a timezone-aware time (its subtraction from `utcnow()` raises a TypeError that is caught), or a naive time and its age in microseconds. The date parser behind `standardize_date` is a parameter.
- CacheDoc.OverflowMessage: is CPython's text for `timedelta(days=n)` with n beyond 999999999 in magnitude while n fits a C `int`; for larger n CPython reports a different OverflowError text. Only the failure and the absence of "rate limit exceeded" from the text matter to the model, and both hold for either text.
- Update.PassOf: does not promise that a failed pass came before the rate limit, or that an unknown language fails with the unsupported message, when `force` is off and the freshness check raises. `is_update_needed` runs at `cache_version_info.py:346`, before the rate-limit test at l.352 and the fetcher lookup at l.358. Such a pass fails with the check's OverflowError text even after the limit, as its own clause and `Update.OverflowFails` state.
- Logging, `check_github_api`, the Go `check_api`, the CLI, every `main()` and argparse block, and the example programs.
- `get_version_fetcher` is a lookup table; languages are plain names checked against the supported list.
- Dictionary iteration order. Languages are processed as a set, so when `generate_matrix_json` writes every language to the same file, the model does not say which write comes last.
- Object key order in JSON documents.
- Cache.VersionCache.constructor: requires the loaded document to be `Shaped` ("languages" an object whose entries are objects, "metadata" an object whose `version_count` is a number), and every cache operation keeps it so. `_load_cache` accepts any JSON document. A non-object "languages" value or language entry makes `is_update_needed` or `merge_versions` raise inside the `try` of `update_versions`, and that language fails; the model does not express such documents or that failure.
- CacheDoc.MergedReleases: a stored release without a string version makes the sort fail with the KeyError message `'version'`. Python raises that KeyError for an object without "version", but a TypeError for a non-object entry and an AttributeError for a non-string version, with other messages. The outcome is the same: the language fails, and no message sets the rate-limit flag.
- Python's sort on a list holding keys it cannot compare raises TypeError partway through. The model raises whenever any two keys of the list are incomparable, which over-approximates when Python raises.
- Unicode. Case mapping, digits and `\w` are the ASCII ones.
- A top-level input matrix file that decodes to something other than an object is not modelled; the input file is an object or fails to decode.
- GoFetch.Details: leaves out the release's `available_platforms` list, whose order comes from a set.
- RustFetch.ReleasesMdInfo: leaves out the release date that the RELEASES.md fallback finds with a regular-expression search.
- RustFetch.FetchRustVersions: every decoded GitHub release has a string "tag_name" and a string "published_at" (`Release.publishedAt` is a `string`). A release missing "tag_name" or one whose "published_at" is `null` makes `rust_fetch.py:34`, `39`, `45` or `48` raise; the `except Exception` then falls back to RELEASES.md. The model does not express such feeds or that fallback path.
- CacheDoc.Newest: does not state that releases with equal sort keys (such as "1.0" and "1-0") keep their stored-then-fetched order, which the stable sort gives them (`SortKey.SortStable` proves that stability for `SortBy` in general).
- CacheDoc.ExistingVersions: collects any JSON value stored under "version". In Python a list or object there is unhashable, so `existing_versions.add` raises TypeError (`cache_version_info.py:195-196`) and that language fails. The model does not express that failure.
- Template.Preserved: the existing template file is taken to be an object. A file that decodes to a number, or to a list or string holding "os" or "ghpages_branch", makes the lookup raise TypeError. The `except (json.JSONDecodeError, IOError)` at `cache_version_info.py:466-475` does not catch it, and the model does not express that failure.
- PythonFetch.FetchPythonVersions: a release's `release_date` is always a string; a `null` date, which would make the sort raise TypeError, is not modelled.
- NodejsFetch.FetchNodejsVersions: every decoded entry of the index is an object with a string "version" (`NodejsFetch.Release.version` is a `string`). An entry that is not an object, lacks "version" or holds a non-string there makes `version_sort_key` (`nodejs_fetch.py:21`, not caught by its `except ValueError`) or the reads at `nodejs_fetch.py:48`, `63` and `74-75` raise, and the function then returns only the error and its type (`nodejs_fetch.py:80-82`). The model does not express such feeds or that result for them; it does express that result for a failed download. A feed that is not a list is not modelled either.
- GoFetch.FetchGoVersions: every decoded release is an object with a string "version" whose "files" is a list of objects (`GoFetch.Release.files` is a `seq<map<string, Json>>`). A release without a string "version" makes `go_fetch.py:21`, `47`, `68`, `89` or `95` raise, and a non-object file makes the `f.get` calls at `go_fetch.py:54-60` or `75-81` raise; the function then returns only the error and its type (`go_fetch.py:108-110`). The model does not express such feeds or that result for them; it does express that result for a failed download. A feed that is not a list is not modelled either.
- Json.Json: JSON numbers are modelled as integers (`JNum(n: int)`). A fractional number, in a hand-edited cache, matrix or template document for instance, is not representable.
